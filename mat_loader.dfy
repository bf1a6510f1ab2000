// The public MAT-file loader: it tells a level 4 file from a level 5 one by
// its first four bytes, hands the reading to the loader of that level, and
// keeps every variable read so far by name.

module MatLoader {
  import opened Java
  import opened ByteBuffers
  import opened MatVars
  import opened MatContainers
  import Mat4
  import Mat5
  import Mat5Loader

  datatype Level = Level4 | Level5

  /**
   * `checkMatfileLevel`: four bytes are read; a zero byte among them marks a
   * level 4 file, whose first int is a small MOPT, where a level 5 file
   * starts with its text description.
   */
  function LevelOf(buf: seq<u8>): (r: Result<Level>)
    ensures r.Fail? <==> |buf| < 4
    ensures r.Fail? ==> r.error == BufferUnderflow
    ensures r.Ok? ==> (r.value == Level4 <==> exists k :: 0 <= k < 4 && buf[k] == 0)
  {
    if |buf| < 4 then Fail(BufferUnderflow)
    else if 0 in buf[..4] then Ok(Level4)
    else Ok(Level5)
  }

  /** `checkMatfileLevel`'s loop over the first four bytes. */
  method CheckLevel(buf: seq<u8>) returns (r: Result<Level>)
    ensures r == LevelOf(buf)
  {
    var v4 := false;
    for i := 0 to 4
      invariant i <= |buf|
      invariant v4 <==> 0 in buf[..i]
    {
      if i >= |buf| {
        return Fail(BufferUnderflow);
      }
      assert buf[..i + 1] == buf[..i] + [buf[i]];
      if buf[i] == 0 {
        v4 := true;
      }
    }
    return if v4 then Ok(Level4) else Ok(Level5);
  }

  /** Every level 4 file, in either byte order, is recognised as one: its MOPT is at most 4052. */
  lemma Level4Recognised(buf: seq<u8>, mopt: nat, order: ByteOrder)
    requires mopt <= Mat4.MAX_TYPE && |buf| >= 4 && buf[..4] == Encode(mopt, 4, order)
    ensures LevelOf(buf) == Ok(Level4)
  {
    Mat4.SmallWordBytes(mopt, order);
    if order == BigEndian {
      assert buf[..4][0] == 0;
    } else {
      assert buf[..4][3] == 0;
    }
  }

  /** `loadNext()` of a level 4 loader, as far as the public loader relies on it: it moves on exactly when it reads a variable. */
  method Next4(l: Mat4.Matfile4Loader) returns (r: Result<Option<Loaded>>)
    requires l.Valid()
    modifies l
    ensures l.Valid()
    ensures r.Ok? && r.value.Some? ==> |l.buf| - l.position < old(|l.buf| - l.position)
    ensures r.Fail? || r.value.None? ==> l.position == old(l.position)
    ensures r == Ok(None) <==> old(|l.buf| - l.position) <= Mat4.HEADER_BYTES
  {
    r := l.LoadNext();
  }

  /** `loadNext()` of a level 5 loader, as far as the public loader relies on it. */
  method Next5(l: Mat5Loader.Matfile5Loader, inflate: Mat5Loader.Gzip) returns (r: Result<Option<Loaded>>)
    requires l.Valid()
    modifies l
    ensures l.Valid()
    ensures r.Ok? && r.value.Some? ==> |l.buf| - l.position < old(|l.buf| - l.position)
    ensures r.Fail? || r.value.None? ==> l.position == old(l.position)
    ensures r == Ok(None) <==> old(|l.buf| - l.position) == 0
  {
    r := l.LoadNext(inflate);
  }

  /** The loader of the file's level that the public loader hands the reading to. */
  datatype Inner = V4(l4: Mat4.Matfile4Loader) | V5(l5: Mat5Loader.Matfile5Loader)

  /** A MAT-file being read, and the variables read from it so far, by name. */
  class MatfileLoader {
    const loader: Inner
    /** The `GZIPInputStream` that inflates a compressed level 5 element. */
    const inflate: Mat5Loader.Gzip
    var vars: map<Name, Loaded>

    /** The object of the level's loader, which reading advances. */
    function Reader(): object
    {
      match loader
      case V4(l) => l
      case V5(l) => l
    }

    predicate Valid()
      reads this, Reader()
    {
      match loader
      case V4(l) => l.Valid()
      case V5(l) => l.Valid()
    }

    /** The bytes left for the level's loader to read. */
    function Remaining(): nat
      reads this, Reader()
      requires Valid()
    {
      match loader
      case V4(l) => |l.buf| - l.position
      case V5(l) => |l.buf| - l.position
    }

    /** The level's loader has no further variable: 20 bytes or fewer left at level 4, none at level 5. */
    predicate Exhausted()
      reads this, Reader()
      requires Valid()
    {
      match loader
      case V4(_) => Remaining() <= Mat4.HEADER_BYTES
      case V5(_) => Remaining() == 0
    }

    constructor(loader: Inner, inflate: Mat5Loader.Gzip)
      ensures this.loader == loader && this.inflate == inflate && vars == map[]
    {
      this.loader := loader;
      this.inflate := inflate;
      vars := map[];
    }

    /**
     * `getNext()`: the next variable from the level's loader, recorded under
     * its name (replacing one of the same name); nothing once the file is
     * used up. Every variable read moves the loader on.
     */
    method GetNext() returns (r: Result<Option<Loaded>>)
      requires Valid()
      modifies this, Reader()
      ensures Valid()
      ensures r.Ok? && r.value.Some? ==> vars == old(vars)[NameOf(r.value.value) := r.value.value]
      ensures r.Ok? && r.value.Some? ==> Remaining() < old(Remaining())
      ensures r.Fail? || r.value.None? ==> vars == old(vars) && Remaining() == old(Remaining())
      ensures r == Ok(None) <==> old(Exhausted())
      ensures r == Ok(None) ==> Exhausted()
    {
      match loader {
        case V4(l) =>
          r := Next4(l);
        case V5(l) =>
          r := Next5(l, inflate);
      }
      if r.Ok? && r.value.Some? {
        vars := vars[NameOf(r.value.value) := r.value.value];
      }
    }

    /**
     * `get(name)`: the variable of that name, reading on until it turns up;
     * nothing when the file is used up first.
     */
    method Get(name: Name) returns (r: Result<Option<Loaded>>)
      requires Valid()
      modifies this, Reader()
      ensures Valid() && old(vars).Keys <= vars.Keys
      ensures name in old(vars) ==> r == Ok(Some(old(vars)[name])) && vars == old(vars)
      ensures r.Ok? && r.value.Some? ==> name in vars && r.value.value == vars[name]
      ensures r == Ok(None) ==> name !in vars && Exhausted()
    {
      while name !in vars
        invariant Valid() && old(vars).Keys <= vars.Keys
        invariant name in old(vars) ==> vars == old(vars)
        decreases Remaining()
      {
        var next := GetNext();
        if next.Fail? {
          return Fail(next.error);
        }
        if next.value.None? {
          return Ok(None);
        }
      }
      return Ok(Some(vars[name]));
    }

    /** `fillVariables()`: reads every remaining variable; an exception stops it. */
    method FillVariables() returns (out: Outcome)
      requires Valid()
      modifies this, Reader()
      ensures Valid() && old(vars).Keys <= vars.Keys
      ensures out == Done ==> Exhausted()
    {
      while true
        invariant Valid() && old(vars).Keys <= vars.Keys
        decreases Remaining()
      {
        var next := GetNext();
        if next.Fail? {
          return Thrown(next.error);
        }
        if next.value.None? {
          return Done;
        }
      }
    }

    /** `getNames()`: the names of the variables read so far, each once, in no particular order. */
    method GetNames() returns (names: seq<Name>)
      ensures |names| == |vars.Keys|
      ensures forall n :: n in names <==> n in vars
      ensures forall a, b :: 0 <= a < b < |names| ==> names[a] != names[b]
    {
      names := [];
      var rest := vars.Keys;
      while rest != {}
        invariant rest <= vars.Keys
        invariant forall n :: n in names <==> n in vars && n !in rest
        invariant forall a, b :: 0 <= a < b < |names| ==> names[a] != names[b]
        invariant |names| + |rest| == |vars.Keys|
        decreases |rest|
      {
        var n :| n in rest;
        names := names + [n];
        rest := rest - {n};
      }
    }
  }

  /**
   * `new MatfileLoader(file)` on the file's bytes: the level, then the
   * loader of that level, which may throw on a malformed header.
   * `initial` is the byte order the buffer comes with.
   */
  method Open(buf: seq<u8>, initial: ByteOrder, inflate: Mat5Loader.Gzip) returns (r: Result<MatfileLoader>)
    ensures r.Fail? <==> |buf| < 4 || (LevelOf(buf) == Ok(Level4) && Mat4.Endian(buf).Fail?)
                                    || (LevelOf(buf) == Ok(Level5) && |buf| < Mat5.HEADER_SIZE)
    ensures r.Ok? ==> fresh(r.value) && r.value.Valid() && r.value.vars == map[] && r.value.inflate == inflate
    ensures r.Ok? ==> (r.value.loader.V4? <==> LevelOf(buf) == Ok(Level4))
    ensures r.Ok? && r.value.loader.V4? ==> r.value.loader.l4.buf == buf && r.value.loader.l4.position == 0
    ensures r.Ok? && r.value.loader.V5? ==> r.value.loader.l5.buf == buf && r.value.loader.l5.position == Mat5.HEADER_SIZE
  {
    var level :- CheckLevel(buf);
    var inner: Inner;
    if level == Level4 {
      var l :- Mat4.Open(buf);
      inner := V4(l);
    } else {
      var l :- Mat5Loader.Open(buf, initial);
      inner := V5(l);
    }
    var loader := new MatfileLoader(inner, inflate);
    return Ok(loader);
  }
}
