// The element types a volume can hold. Each carries the Analyze / NIFTI
// datatype code that stands for it in a header (stored as a Java short) and
// the number of bits one element takes; the atlas type is a marker with
// neither.

module DataTypes {
  import opened Java

  datatype DataType =
    | TYPE_BINARY
    | TYPE_BYTE
    | TYPE_UBYTE
    | TYPE_SHORT
    | TYPE_USHORT
    | TYPE_INT
    | TYPE_RGB
    | TYPE_LONG
    | TYPE_FLOAT
    | TYPE_DOUBLE
    | TYPE_ATLAS
  {
    /** The header code the constructor was given, narrowed to a short as the field is. */
    function Value(): (v: i16)
    {
      match this
      case TYPE_BINARY => 1
      case TYPE_BYTE => 256
      case TYPE_UBYTE => 2
      case TYPE_SHORT => 4
      case TYPE_USHORT => 512
      case TYPE_INT => 8
      case TYPE_RGB => 128
      case TYPE_LONG => 1024
      case TYPE_FLOAT => 16
      case TYPE_DOUBLE => 64
      case TYPE_ATLAS => -1
    }

    /** The number of bits needed to encode one element. */
    function BitsPerEntry(): (b: int)
    {
      match this
      case TYPE_BINARY => 1
      case TYPE_BYTE => 8
      case TYPE_UBYTE => 8
      case TYPE_SHORT => 16
      case TYPE_USHORT => 16
      case TYPE_INT => 32
      case TYPE_RGB => 32
      case TYPE_LONG => 64
      case TYPE_FLOAT => 32
      case TYPE_DOUBLE => 64
      case TYPE_ATLAS => -1
    }
  }

  /** `values()`: the constants in declaration order. */
  const VALUES: seq<DataType> := [
    TYPE_BINARY, TYPE_BYTE, TYPE_UBYTE, TYPE_SHORT, TYPE_USHORT, TYPE_INT,
    TYPE_RGB, TYPE_LONG, TYPE_FLOAT, TYPE_DOUBLE, TYPE_ATLAS
  ]

  /** The first of `types` whose code is `value`, scanning from the front. */
  function Find(types: seq<DataType>, value: int): (r: Result<DataType>)
    ensures r.Ok? <==> exists i :: 0 <= i < |types| && types[i].Value() == value
    ensures r.Ok? ==> r.value.Value() == value && r.value in types
    ensures r.Fail? ==> r.error == IllegalArgument
  {
    if |types| == 0 then Fail(IllegalArgument)
    else if types[0].Value() == value then Ok(types[0])
    else
      var rest := Find(types[1..], value);
      assert forall i :: 1 <= i < |types| ==> types[i] == types[1..][i - 1];
      rest
  }

  /** `DataType.valueOf(value)`: the type whose code is `value`, or IllegalArgument. */
  function ValueOf(value: int): (r: Result<DataType>)
    ensures r.Ok? ==> r.value.Value() == value
    ensures r.Fail? <==> forall i :: 0 <= i < |VALUES| ==> VALUES[i].Value() != value
  {
    Find(VALUES, value)
  }

  /** Position of each constant in `values()`. */
  function Ordinal(t: DataType): (i: nat)
    ensures i < |VALUES| && VALUES[i] == t
  {
    match t
    case TYPE_BINARY => 0
    case TYPE_BYTE => 1
    case TYPE_UBYTE => 2
    case TYPE_SHORT => 3
    case TYPE_USHORT => 4
    case TYPE_INT => 5
    case TYPE_RGB => 6
    case TYPE_LONG => 7
    case TYPE_FLOAT => 8
    case TYPE_DOUBLE => 9
    case TYPE_ATLAS => 10
  }

  /** Every type is found again from its own code: the codes are distinct. */
  lemma ValueOfValue(t: DataType)
    ensures ValueOf(t.Value() as int) == Ok(t)
  {
    var i := Ordinal(t);
    assert VALUES[i].Value() == t.Value();
    assert forall u: DataType :: u.Value() == t.Value() ==> u == t;
  }

  /** `valueOf` fails exactly on the codes no constant carries. */
  lemma ValueOfFails(value: int)
    ensures ValueOf(value).Fail? <==> forall t: DataType :: t.Value() != value
  {
    if ValueOf(value).Fail? {
      forall t: DataType ensures t.Value() != value {
        var i := Ordinal(t);
      }
    }
  }

  /** The atlas marker has neither a code nor a width: both are -1. */
  lemma AtlasIsMarker()
    ensures TYPE_ATLAS.Value() == -1 && TYPE_ATLAS.BitsPerEntry() == -1
    ensures forall t: DataType :: t != TYPE_ATLAS ==> t.Value() > 0 && t.BitsPerEntry() > 0
  {
    forall t: DataType | t != TYPE_ATLAS
      ensures t.Value() > 0 && t.BitsPerEntry() > 0
    {
    }
  }
}
