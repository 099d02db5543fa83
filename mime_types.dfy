/**
 * The list of MIME types offered as filters by the "Open" dialog:
 * the helper that builds it and the "append if absent" step that the
 * open action performs on it before showing the dialog.
 */
module MimeTypes {

  type MimeType = string

  const AVI: MimeType := "video/x-msvideo"
  const MP4: MimeType := "video/mp4"
  const TS: MimeType := "video/mp2t"
  const FLV: MimeType := "video/x-flv"
  const ThreeGP: MimeType := "video/3gpp"

  /** The types the player always lists first, in this order. */
  const BuiltinTypes: seq<MimeType> := [AVI, MP4, TS, FLV, ThreeGP]

  /** The filter the dialog preselects: AVI on Windows, MP4 elsewhere. */
  function PlatformDefault(isWindows: bool): MimeType
  {
    if isWindows then AVI else MP4
  }

  /**
   * Builds the supported-type list: the built-in types followed by every
   * type the media backend reports, appended one at a time.
   */
  method GetSupportedMimeTypes(backendTypes: seq<MimeType>) returns (result: seq<MimeType>)
    ensures result == BuiltinTypes + backendTypes
  {
    result := BuiltinTypes;
    var k := 0;
    while k < |backendTypes|
      invariant 0 <= k <= |backendTypes|
      invariant result == BuiltinTypes + backendTypes[..k]
    {
      result := result + [backendTypes[k]];
      k := k + 1;
    }
    assert backendTypes[..k] == backendTypes;
  }

  /** `xs` with `t` added at the end, unless `t` is already listed. */
  function AppendIfAbsent(xs: seq<MimeType>, t: MimeType): (r: seq<MimeType>)
    ensures t in r
    ensures |xs| <= |r| <= |xs| + 1 && r[..|xs|] == xs
    ensures |r| == |xs| <==> t in xs
  {
    if t in xs then xs else xs + [t]
  }

  /** Appends each of `ts`, in order, unless it is already listed. */
  function AppendAllAbsent(xs: seq<MimeType>, ts: seq<MimeType>): seq<MimeType>
    decreases |ts|
  {
    if ts == [] then xs else AppendAllAbsent(AppendIfAbsent(xs, ts[0]), ts[1..])
  }

  /** The types the open action makes sure are listed, in the order it checks them. */
  function RequiredTypes(isWindows: bool): seq<MimeType>
  {
    [PlatformDefault(isWindows), TS, FLV, ThreeGP]
  }

  /** The list the filter step starts from: an empty list is rebuilt. */
  function FilterBase(current: seq<MimeType>, backendTypes: seq<MimeType>): seq<MimeType>
  {
    if current == [] then BuiltinTypes + backendTypes else current
  }

  /**
   * The filter list after the open action's filter step: the list is
   * (re)built when it is empty, then the platform default, TS, FLV and
   * 3GP are appended in that order, each only if absent.
   */
  function FilterStep(current: seq<MimeType>, isWindows: bool,
                      backendTypes: seq<MimeType>): seq<MimeType>
  {
    AppendAllAbsent(FilterBase(current, backendTypes), RequiredTypes(isWindows))
  }

  /** No type occurs twice. */
  predicate NoDuplicates(xs: seq<MimeType>)
  {
    forall i, j :: 0 <= i < j < |xs| ==> xs[i] != xs[j]
  }

  lemma AppendIfAbsentNoDuplicates(xs: seq<MimeType>, t: MimeType)
    requires NoDuplicates(xs)
    ensures NoDuplicates(AppendIfAbsent(xs, t))
  {
  }

  /** Every type asked for is listed afterwards. */
  lemma {:induction false} AppendAllAbsentContains(xs: seq<MimeType>, ts: seq<MimeType>)
    ensures forall t :: t in ts ==> t in AppendAllAbsent(xs, ts)
    decreases |ts|
  {
    if ts != [] {
      var ys := AppendIfAbsent(xs, ts[0]);
      AppendAllAbsentContains(ys, ts[1..]);
      AppendAllAbsentKeeps(ys, ts[1..]);
      assert ts[0] in ys[..|ys|];
    }
  }

  /**
   * The list only grows at its end, by at most one entry per type asked
   * for, and everything added is one of those types.
   */
  lemma {:induction false} AppendAllAbsentKeeps(xs: seq<MimeType>, ts: seq<MimeType>)
    ensures var r := AppendAllAbsent(xs, ts);
      |xs| <= |r| <= |xs| + |ts| && r[..|xs|] == xs &&
      forall i :: |xs| <= i < |r| ==> r[i] in ts
    decreases |ts|
  {
    if ts != [] {
      var ys := AppendIfAbsent(xs, ts[0]);
      AppendAllAbsentKeeps(ys, ts[1..]);
      var r := AppendAllAbsent(xs, ts);
      assert r[..|ys|][..|xs|] == r[..|xs|];
      forall i | |xs| <= i < |r| ensures r[i] in ts {
        if i < |ys| {
          assert r[i] == r[..|ys|][i] == ys[i] == ts[0];
        } else {
          assert r[i] in ts[1..];
        }
      }
    }
  }

  /** A list that already holds every type asked for is left as it is. */
  lemma {:induction false} AppendAllAbsentNoOp(xs: seq<MimeType>, ts: seq<MimeType>)
    requires forall t :: t in ts ==> t in xs
    ensures AppendAllAbsent(xs, ts) == xs
    decreases |ts|
  {
    if ts != [] {
      assert ts[0] in ts;
      forall t | t in ts[1..] ensures t in xs {
        assert t in ts;
      }
      AppendAllAbsentNoOp(xs, ts[1..]);
    }
  }

  /** Appending only absent types never creates a duplicate. */
  lemma {:induction false} AppendAllAbsentNoDuplicates(xs: seq<MimeType>, ts: seq<MimeType>)
    requires NoDuplicates(xs)
    ensures NoDuplicates(AppendAllAbsent(xs, ts))
    decreases |ts|
  {
    if ts != [] {
      AppendIfAbsentNoDuplicates(xs, ts[0]);
      AppendAllAbsentNoDuplicates(AppendIfAbsent(xs, ts[0]), ts[1..]);
    }
  }

  /**
   * After the filter step TS, FLV, 3GP and the platform default are all
   * listed, so the dialog always preselects the default filter.
   */
  lemma FilterStepContainsRequired(current: seq<MimeType>, isWindows: bool,
                                   backendTypes: seq<MimeType>)
    ensures var r := FilterStep(current, isWindows, backendTypes);
      TS in r && FLV in r && ThreeGP in r && PlatformDefault(isWindows) in r
  {
    AppendAllAbsentContains(FilterBase(current, backendTypes), RequiredTypes(isWindows));
  }

  /**
   * A non-empty list only grows at its end: earlier entries keep their
   * positions, at most four types are appended, and each one appended is
   * a required type.
   */
  lemma FilterStepKeepsExisting(current: seq<MimeType>, isWindows: bool,
                                backendTypes: seq<MimeType>)
    requires current != []
    ensures var r := FilterStep(current, isWindows, backendTypes);
      |current| <= |r| <= |current| + 4 && r[..|current|] == current &&
      forall i :: |current| <= i < |r| ==> r[i] in RequiredTypes(isWindows)
  {
    AppendAllAbsentKeeps(current, RequiredTypes(isWindows));
  }

  /** A list that already holds every required type is left exactly as it is. */
  lemma FilterStepNoOpWhenPresent(current: seq<MimeType>, isWindows: bool,
                                  backendTypes: seq<MimeType>)
    requires current != []
    requires PlatformDefault(isWindows) in current && TS in current && FLV in current && ThreeGP in current
    ensures FilterStep(current, isWindows, backendTypes) == current
  {
    AppendAllAbsentNoOp(current, RequiredTypes(isWindows));
  }

  /**
   * An empty list is rebuilt from the built-in and backend types; since the
   * built-ins already hold every required type, nothing more is appended.
   */
  lemma FilterStepFromEmpty(isWindows: bool, backendTypes: seq<MimeType>)
    ensures FilterStep([], isWindows, backendTypes) == BuiltinTypes + backendTypes
  {
    var base := BuiltinTypes + backendTypes;
    assert base[0] == AVI && base[1] == MP4 && base[2] == TS && base[3] == FLV && base[4] == ThreeGP;
    FilterStepNoOpWhenPresent(base, isWindows, backendTypes);
  }

  /** Repeating the step (opening a second time) changes nothing. */
  lemma FilterStepIdempotent(current: seq<MimeType>, isWindows: bool,
                             backendTypes: seq<MimeType>)
    ensures var r := FilterStep(current, isWindows, backendTypes);
      FilterStep(r, isWindows, backendTypes) == r
  {
    var r := FilterStep(current, isWindows, backendTypes);
    FilterStepContainsRequired(current, isWindows, backendTypes);
    AppendAllAbsentKeeps(FilterBase(current, backendTypes), RequiredTypes(isWindows));
    assert r != [];
    FilterStepNoOpWhenPresent(r, isWindows, backendTypes);
  }

  /** The step never introduces a duplicate into a duplicate-free list. */
  lemma FilterStepNoDuplicates(current: seq<MimeType>, isWindows: bool,
                               backendTypes: seq<MimeType>)
    requires NoDuplicates(FilterBase(current, backendTypes))
    ensures NoDuplicates(FilterStep(current, isWindows, backendTypes))
  {
    AppendAllAbsentNoDuplicates(FilterBase(current, backendTypes), RequiredTypes(isWindows));
  }
}
