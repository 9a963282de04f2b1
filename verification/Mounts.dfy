/** Operator-defined mounts, and the image's policy on where they may go. */
module Mounts {
  import opened Basics
  import opened EnvVars
  import opened CosLog
  import opened Paths

  const COMMA: byte := 44
  const COLON: byte := 58

  // ----- Mounts from operator text

  const TYPE_KEY: Bytes := Ascii("type")
  const SOURCE_KEY: Bytes := Ascii("source")
  const DESTINATION_KEY: Bytes := Ascii("destination")
  const SIZE_KEY: Bytes := Ascii("size")
  const TMPFS: Bytes := Ascii("tmpfs")
  const MOUNT_KEYS: set<Bytes> := {TYPE_KEY, SOURCE_KEY, DESTINATION_KEY, SIZE_KEY}

  datatype TmpfsMount = TmpfsMount(destination: Bytes, size: nat)

  datatype MountError = BadOption | UnknownOption | UnknownType | WrongSource | NoDestination | BadSize

  /** The value of a key, empty if it is missing. */
  function Lookup(m: map<Bytes, Bytes>, key: Bytes): Bytes {
    if key in m then m[key] else []
  }

  function ParseUint64(s: Bytes): Option<nat> {
    if s != [] && AllDigits(s) && Value(s) < 0x1_0000_0000_0000_0000
    then Some(Value(s)) else None
  }

  /** Joins "/" and a relative path, which also cleans it. */
  function UnderRoot(dst: Bytes): Bytes {
    Clean([SLASH, SLASH] + dst)
  }

  lemma UnderRootIsAbsolute(dst: Bytes)
    ensures IsAbs(UnderRoot(dst))
  {
    CleanPreserves([SLASH, SLASH] + dst);
  }

  /** The further slash makes no difference. */
  lemma UnderRootExact(dst: Bytes)
    ensures UnderRoot(dst) == Clean([SLASH] + dst)
  {
    assert [SLASH, SLASH] + dst == [SLASH] + ([SLASH] + dst);
    assert [] + [SLASH] + dst == [SLASH] + dst;
    RootedComponents([SLASH] + dst);
    RootedComponents(dst);
    SplitFirst([], dst, SLASH);
    assert ([[]] + Split(dst, SLASH))[1..] == Split(dst, SLASH);
  }

  /** Where a mount goes. */
  function Mountpoint(dst: Bytes): Bytes {
    if IsAbs(dst) then dst else UnderRoot(dst)
  }

  /** The options that make a mount. */
  predicate TmpfsOptions(m: map<Bytes, Bytes>) {
    && Lookup(m, TYPE_KEY) == TMPFS && Lookup(m, SOURCE_KEY) == TMPFS && Lookup(m, DESTINATION_KEY) != []
    && (SIZE_KEY in m ==> ParseUint64(m[SIZE_KEY]).Some?)
    && m.Keys <= MOUNT_KEYS
  }

  method CreateTmpfsMount(options: map<Bytes, Bytes>) returns (r: Result<TmpfsMount, MountError>)
    ensures r.Ok? <==> TmpfsOptions(options)
    ensures r.Ok? ==>
              && IsAbs(r.value.destination)
              && r.value.destination == Mountpoint(options[DESTINATION_KEY])
              && r.value.size == if SIZE_KEY in options then ParseUint64(options[SIZE_KEY]).value else 0
  {
    if Lookup(options, TYPE_KEY) != TMPFS {
      return Err(UnknownType);
    }
    if Lookup(options, SOURCE_KEY) != TMPFS {
      return Err(WrongSource);
    }
    var dst := Lookup(options, DESTINATION_KEY);
    if dst == [] {
      return Err(NoDestination);
    }
    UnderRootIsAbsolute(dst);
    if !IsAbs(dst) {
      dst := UnderRoot(dst);
    }
    var rest := options - {TYPE_KEY, SOURCE_KEY, DESTINATION_KEY};
    var size := 0;
    if SIZE_KEY in options {
      var sz := ParseUint64(options[SIZE_KEY]);
      if sz.None? {
        return Err(BadSize);
      }
      size := sz.value;
      rest := rest - {SIZE_KEY};
    }
    assert forall k | k in options :: k in rest || k in MOUNT_KEYS;
    if rest != map[] {
      assert exists k :: k in rest && k !in MOUNT_KEYS by {
        var k :| k in rest.Keys;
      }
      return Err(UnknownOption);
    }
    return Ok(TmpfsMount(dst, size));
  }

  predicate OptionOk(text: Bytes, keys: set<Bytes>) {
    ParseEnvVar(text).Ok? && ParseEnvVar(text).value.name in keys
  }

  predicate AllOk(options: seq<Bytes>, keys: set<Bytes>) {
    forall k | 0 <= k < |options| :: OptionOk(options[k], keys)
  }

  /** Adds one option with a known name. */
  method AddOption(config: map<Bytes, Bytes>, option: Bytes, keys: set<Bytes>) returns (r: Result<EnvVar, MountError>)
    ensures r.Ok? <==> OptionOk(option, keys)
    ensures r.Ok? ==>
              forall earlier :: Bindings(earlier) == config ==>
                Bindings(earlier + [option]) == config[r.value.name := r.value.value]
    ensures r.Ok? ==> r.value.name in keys
  {
    var e := ParseEnvVar(option);
    if e.Err? {
      return Err(BadOption);
    }
    if e.value.name !in keys {
      return Err(UnknownOption);
    }
    forall earlier | Bindings(earlier) == config
      ensures Bindings(earlier + [option]) == config[e.value.name := e.value.value]
    {
      BindingsSnoc(earlier, option);
    }
    return Ok(e.value);
  }

  /** Collects NAME=VALUE options, the later one winning, and the mount type on the way. */
  method ParseOptions(options: seq<Bytes>, keys: set<Bytes>, typeKey: Bytes)
    returns (r: Result<map<Bytes, Bytes>, MountError>, mountType: Bytes)
    ensures r.Ok? <==> AllOk(options, keys)
    ensures r.Ok? ==> r.value == Bindings(options) && r.value.Keys <= keys && mountType == Lookup(r.value, typeKey)
  {
    var config: map<Bytes, Bytes> := map[];
    mountType := [];
    for i := 0 to |options|
      invariant AllOk(options[..i], keys)
      invariant config == Bindings(options[..i]) && config.Keys <= keys && mountType == Lookup(config, typeKey)
    {
      var option := AddOption(config, options[i], keys);
      assert options[..i + 1] == options[..i] + [options[i]];
      if option.Err? {
        r := Err(option.error);
        return;
      }
      if option.value.name == typeKey {
        mountType := option.value.value;
      }
      config := config[option.value.name := option.value.value];
    }
    assert options[..|options|] == options;
    r := Ok(config);
  }

  /** Every mount built from operator text has an absolute mountpoint, which is the text's last destination, and its last
      size or none. */
  method ProcessMount(text: Bytes) returns (r: Result<TmpfsMount, MountError>)
    ensures r.Ok? <==>
            AllOk(Split(text, COMMA), MOUNT_KEYS) && TmpfsOptions(Bindings(Split(text, COMMA)))
    ensures r.Ok? ==>
              var options := Bindings(Split(text, COMMA));
              && IsAbs(r.value.destination) && r.value.destination == Mountpoint(options[DESTINATION_KEY])
              && r.value.size == if SIZE_KEY in options then ParseUint64(options[SIZE_KEY]).value else 0
  {
    var config, mountType := ParseOptions(Split(text, COMMA), MOUNT_KEYS, TYPE_KEY);
    if config.Err? {
      return Err(config.error);
    }
    if mountType != TMPFS {
      return Err(UnknownType);
    }
    r := CreateTmpfsMount(config.value);
  }

  // ----- The policy

  /** The image label's list of directories: cleaned, empty entries left out. */
  function AllowedFrom(pieces: seq<Bytes>): seq<Bytes> {
    if pieces == [] then []
    else AllowedFrom(pieces[..|pieces| - 1]) + if pieces[|pieces| - 1] != [] then [Clean(pieces[|pieces| - 1])] else []
  }

  lemma {:induction false} AllowedClean(pieces: seq<Bytes>)
    ensures forall a <- AllowedFrom(pieces) :: Clean(a) == a
  {
    if pieces != [] {
      AllowedClean(pieces[..|pieces| - 1]);
      CleanIdempotent(pieces[|pieces| - 1]);
    }
  }

  /** The list entry by entry. */
  lemma {:induction false} AllowedExact(pieces: seq<Bytes>, more: seq<Bytes>, p: Bytes)
    ensures AllowedFrom(pieces + more) == AllowedFrom(pieces) + AllowedFrom(more)
    ensures AllowedFrom([p]) == if p == [] then [] else [Clean(p)]
  {
    assert AllowedFrom([p][..0]) == [];
    if more == [] {
      assert pieces + more == pieces;
    } else {
      var front, last := more[..|more| - 1], more[|more| - 1];
      assert (pieces + more)[..|pieces + more| - 1] == pieces + front;
      AllowedExact(pieces, front, p);
    }
  }

  method AllowedMountDestinations(list: Bytes) returns (allowed: seq<Bytes>)
    ensures allowed == AllowedFrom(Split(list, COLON))
    ensures forall a <- allowed :: Clean(a) == a
  {
    allowed := [];
    var pieces := Split(list, COLON);
    for i := 0 to |pieces|
      invariant allowed == AllowedFrom(pieces[..i])
    {
      assert pieces[..i + 1][..i] == pieces[..i];
      if pieces[i] != [] {
        allowed := allowed + [Clean(pieces[i])];
      }
    }
    assert pieces[..|pieces|] == pieces;
    AllowedClean(pieces);
  }

  /** A directory that contains the destination, with only absolute directories before it in the list. */
  ghost predicate Permits(allowed: seq<Bytes>, dst: Bytes, i: nat) {
    && i < |allowed| && (forall j | 0 <= j <= i :: IsAbs(allowed[j]))
    && Components(allowed[i]) <= Components(dst)
  }

  ghost predicate Permitted(allowed: seq<Bytes>, dst: Bytes) {
    IsAbs(dst) && exists i :: Permits(allowed, dst, i)
  }

  /** Accepts a destination exactly when it lies in or below an allowed directory, element by element, that comes
      before any relative entry of the list. */
  method VerifyMountDestination(allowed: seq<Bytes>, dstPath: Bytes) returns (ok: bool)
    ensures ok <==> Permitted(allowed, dstPath)
  {
    if !IsAbs(dstPath) {
      return false;
    }
    var dst := Clean(dstPath);
    CleanPreserves(dstPath);
    for i := 0 to |allowed|
      invariant forall j | 0 <= j < i :: IsAbs(allowed[j]) && !(Components(allowed[j]) <= Components(dst))
    {
      if !IsAbs(allowed[i]) {
        return false;
      }
      var rel := Rel(allowed[i], dst);
      InsideExactly(allowed[i], dst);
      if StaysInside(rel) {
        assert Permits(allowed, dstPath, i);
        return true;
      }
    }
    return false;
  }

  /** The policy's check of all mounts, which looks at every one. */
  method VerifyMounts(allowed: seq<Bytes>, mounts: seq<TmpfsMount>) returns (ok: bool)
    ensures ok <==> forall m <- mounts :: Permitted(allowed, m.destination)
  {
    ok := true;
    for i := 0 to |mounts|
      invariant ok <==> forall k | 0 <= k < i :: Permitted(allowed, mounts[k].destination)
    {
      var permitted := VerifyMountDestination(allowed, mounts[i].destination);
      ok := ok && permitted;
    }
  }

  /** With absolute directories only, the order of the list does not matter. */
  lemma AbsolutePolicy(allowed: seq<Bytes>, dst: Bytes)
    requires forall a <- allowed :: IsAbs(a)
    ensures Permitted(allowed, dst) <==> IsAbs(dst) && exists a <- allowed :: Components(a) <= Components(dst)
  {
    if IsAbs(dst) && exists a <- allowed :: Components(a) <= Components(dst) {
      var i :| 0 <= i < |allowed| && Components(allowed[i]) <= Components(dst);
      assert Permits(allowed, dst, i);
    }
  }

  /** Going up out of an allowed directory by ".." is seen through: the policy depends only on where paths lead. */
  lemma PolicySeesThroughText(allowed: seq<Bytes>, dst: Bytes, other: Bytes)
    requires Clean(dst) == Clean(other)
    ensures Permitted(allowed, dst) <==> Permitted(allowed, other)
  {
    CleanCanonical(dst, other);
    if Permitted(allowed, dst) {
      var i :| Permits(allowed, dst, i);
      assert Permits(allowed, other, i);
    }
    if Permitted(allowed, other) {
      var i :| Permits(allowed, other, i);
      assert Permits(allowed, dst, i);
    }
  }
}
