// Colour helpers of the volume package: ARGB packing and the alpha setting of
// a colour scheme, and the sparse colour-to-colour lookup table whose entries
// equal to the sentinel NO_COLOR mean "leave the colour unchanged".
//
// Packed colours are Java ints; they are given here by their 32-bit pattern.

module Colors {
  import opened Java

  const NO_COLOR: i32 := 1
  const OPAQUE: i32 := 255

  /** `v & 255` of a Java int, as the low byte of its bit pattern. */
  function LowByte(v: int): bv8
  {
    (v % 256) as bv8
  }

  /** The ARGB word with alpha in bits 24-31, red 16-23, green 8-15 and blue 0-7. */
  function PackARGB(a: bv8, r: bv8, g: bv8, b: bv8): (w: bv32)
    ensures (w >> 24) as bv8 == a
    ensures ((w >> 16) & 0xff) as bv8 == r
    ensures ((w >> 8) & 0xff) as bv8 == g
    ensures (w & 0xff) as bv8 == b
  {
    ((a as bv32) << 24) | ((r as bv32) << 16) | ((g as bv32) << 8) | (b as bv32)
  }

  /** A packed colour is determined by its four channels. */
  lemma PackARGBInjective(a: bv8, r: bv8, g: bv8, b: bv8, a': bv8, r': bv8, g': bv8, b': bv8)
    requires PackARGB(a, r, g, b) == PackARGB(a', r', g', b')
    ensures a == a' && r == r' && g == g' && b == b'
  {
  }

  /**
   * The base implementation of a colour scheme: every value gets the colour
   * {0, 0, 0, 0}; `alpha` is the opacity on the 0..255 scale.
   */
  class ColorScheme {
    var alpha: i32

    /** A scheme starts fully opaque. */
    constructor()
      ensures alpha == OPAQUE
    {
      alpha := OPAQUE;
    }

    /** Whether any colour of the scheme is translucent. */
    function SupportsAlpha(): (r: bool)
      reads this
      ensures r <==> alpha < OPAQUE
    {
      alpha < OPAQUE
    }

    /**
     * Sets the opacity from `(int) (255 * alpha)`; the floating point product
     * is computed by the caller.
     */
    method SetAlpha(scaled: i32)
      modifies this
      ensures alpha == scaled
    {
      alpha := scaled;
    }

    /** The opacity as `alpha / 255` in integer arithmetic, so only 0 or 1 on the 0..255 scale. */
    function GetAlpha(): (r: int)
      reads this
      ensures 0 <= alpha <= OPAQUE ==> (r == 1 <==> alpha == OPAQUE) && (r == 0 <==> alpha < OPAQUE)
    {
      Div(alpha, 255)
    }

    /** The base scheme's colour {R, G, B, A} for any value. */
    function GetRGB(): (rgba: seq<int>)
      ensures |rgba| == 4 && forall i :: 0 <= i < 4 ==> rgba[i] == 0
    {
      [0, 0, 0, 0]
    }

    /** The base scheme's packed colour: transparent black. */
    function GetARGB(): (w: bv32)
      ensures w == 0
    {
      LowByteOfByte(0);
      PackRGBA(GetRGB()).value
    }
  }

  /**
   * `getARGB` of a colour {R, G, B, A}: each component is cut to its low byte;
   * a shorter array fails on the missing index.
   */
  function PackRGBA(rgba: seq<int>): (r: Result<bv32>)
    ensures r.Ok? <==> |rgba| >= 4
    ensures r.Ok? ==> r.value == PackARGB(LowByte(rgba[3]), LowByte(rgba[0]), LowByte(rgba[1]), LowByte(rgba[2]))
  {
    if |rgba| < 4 then Fail(IndexOutOfBounds)
    else Ok(PackARGB(LowByte(rgba[3]), LowByte(rgba[0]), LowByte(rgba[1]), LowByte(rgba[2])))
  }

  /** The low byte of a component in [0, 255] is that component. */
  lemma LowByteOfByte(v: int)
    requires 0 <= v < 256
    ensures LowByte(v) as int == v
  {
    assert v % 256 == v;
  }

  /**
   * A sparse map from original to target colours. Lookups of a colour that is
   * not in the map give the default value; a lookup result equal to NO_COLOR
   * means the original colour is kept.
   */
  class ColorTransformTable {
    var transform: map<i32, i32>
    var defaultValue: i32

    /** An empty table whose default is NO_COLOR. */
    constructor()
      ensures transform == map[] && defaultValue == NO_COLOR
    {
      transform := map[];
      defaultValue := NO_COLOR;
    }

    /** Changes the value returned for colours not in the table. */
    method SetDefault(value: i32)
      modifies this
      ensures defaultValue == value && transform == old(transform)
    {
      defaultValue := value;
    }

    /** Adds or replaces the entry for `original`. */
    method Add(original: i32, target: i32)
      modifies this
      ensures transform == old(transform)[original := target]
      ensures defaultValue == old(defaultValue)
      ensures target != NO_COLOR ==> Get(original) == target
      ensures forall c :: c != original ==> Get(c) == old(Get(c))
    {
      transform := transform[original := target];
    }

    /** The colour `original` is turned into. */
    function Get(original: i32): (r: i32)
      reads this
      ensures original in transform && transform[original] != NO_COLOR ==> r == transform[original]
      ensures original !in transform && defaultValue != NO_COLOR ==> r == defaultValue
      ensures ((original in transform && transform[original] == NO_COLOR) ||
               (original !in transform && defaultValue == NO_COLOR)) ==> r == original
    {
      var t := if original in transform then transform[original] else defaultValue;
      if t == NO_COLOR then original else t
    }

    /** A fresh table maps every colour to itself. */
    lemma EmptyIsIdentity(c: i32)
      requires transform == map[] && defaultValue == NO_COLOR
      ensures Get(c) == c
    {
    }
  }
}
