/** The namespace-permission grammar of `create-token --namespace`:
    comma-separated segments `name+flags`, each flag one of `r`, `w`, `d`,
    compiled into a map from namespace name to its flag characters. */
module Permissions {
  import opened Wrappers
  import opened JsText

  /** The flag characters a segment may grant (read, write, delete). */
  const AllowedPermission: string := "rwd"

  predicate IsAllowed(c: char) {
    c in AllowedPermission
  }

  /** The three ways the compilation ends early, one per message it exits with. */
  datatype PermError =
    | NoSpace     // an empty namespace name or an empty flag string ("... do not provide space ...")
    | NotAllowed  // not exactly two `+` parts, or a flag outside `r`, `w`, `d` ("... from the following : r,w,d")
    | Repeated    // a namespace name declared by an earlier segment ("Namespace cannot be repeated ...")

  /** What a well-formed segment `name+flags` declares. */
  predicate ValidGrant(name: string, flags: string) {
    && name != "" && flags != ""
    && '+' !in name && '+' !in flags
    && forall k :: 0 <= k < |flags| ==> IsAllowed(flags[k])
  }

  /** The checks one comma segment undergoes before the repeat check,
      in the order the handler runs them: empty part, arity, flag characters. */
  function CheckSegment(segment: string): (r: Result<(string, string), PermError>)
    ensures r.Success? ==> ValidGrant(r.value.0, r.value.1)
    ensures r.Success? ==> segment == r.value.0 + "+" + r.value.1
  {
    var per := Split(segment, '+');
    JoinSplit(segment, '+');
    if per[0] == "" || (|per| >= 2 && per[1] == "") then Failure(NoSpace)
    else if |per| != 2 then Failure(NotAllowed)
    else if exists k :: 0 <= k < |per[1]| && !IsAllowed(per[1][k]) then Failure(NotAllowed)
    else
      JoinCons(per, '+');
      Success((per[0], per[1]))
  }

  /** Compiles the remaining segments on top of the map built so far, failing on the first bad segment. */
  function ParseSegments(permissionList: map<string, string>, segments: seq<string>): (r: Result<map<string, string>, PermError>)
    ensures r.Success? ==> permissionList.Keys <= r.value.Keys
    ensures r.Success? ==> forall n :: n in permissionList ==> r.value[n] == permissionList[n]
    decreases |segments|
  {
    if segments == [] then Success(permissionList)
    else
      match CheckSegment(segments[0])
      case Failure(e) => Failure(e)
      case Success(grant) =>
        if grant.0 in permissionList then Failure(Repeated)
        else ParseSegments(permissionList[grant.0 := grant.1], segments[1..])
  }

  /** The permission map a `--namespace` argument compiles to, or the first error: one
      entry per comma segment, each a well-formed grant. */
  function ParsePermissions(namespace: string): (r: Result<map<string, string>, PermError>)
    ensures r.Success? ==> |r.value| == |Split(namespace, ',')|
    ensures r.Success? ==> forall n :: n in r.value ==> ValidGrant(n, r.value[n])
  {
    ParseSegmentsGrants(map[], Split(namespace, ','));
    ParseSegments(map[], Split(namespace, ','))
  }

  /** A successful compilation adds one well-formed entry per segment to the map it starts from. */
  lemma {:induction false} ParseSegmentsGrants(permissionList: map<string, string>, segments: seq<string>)
    ensures ParseSegments(permissionList, segments).Success? ==>
      |ParseSegments(permissionList, segments).value| == |permissionList| + |segments|
    ensures ParseSegments(permissionList, segments).Success? && (forall n :: n in permissionList ==> ValidGrant(n, permissionList[n])) ==>
      forall n :: n in ParseSegments(permissionList, segments).value ==> ValidGrant(n, ParseSegments(permissionList, segments).value[n])
    decreases |segments|
  {
    if segments != [] && CheckSegment(segments[0]).Success? {
      var grant := CheckSegment(segments[0]).value;
      if grant.0 !in permissionList {
        ParseSegmentsGrants(permissionList[grant.0 := grant.1], segments[1..]);
      }
    }
  }

  /** The compiler as the handler runs it: a loop over the comma segments that checks each
      segment, collects its flags one character at a time and enters it in the map. */
  method ParseNameSpacePermissions(namespace: string) returns (r: Result<map<string, string>, PermError>)
    ensures r == ParsePermissions(namespace)
  {
    var segments := Split(namespace, ',');
    var permissionList: map<string, string> := map[];
    var i := 0;
    while i < |segments|
      invariant 0 <= i <= |segments|
      invariant ParsePermissions(namespace) == ParseSegments(permissionList, segments[i..])
    {
      var per := Split(segments[i], '+');
      if per[0] == "" || (|per| >= 2 && per[1] == "") {
        return Failure(NoSpace);
      }
      if |per| != 2 {
        return Failure(NotAllowed);
      }
      var permissions := "";
      var j := 0;
      while j < |per[1]|
        invariant 0 <= j <= |per[1]|
        invariant permissions == per[1][..j]
        invariant forall k :: 0 <= k < j ==> IsAllowed(per[1][k])
      {
        var c := per[1][j];
        if IsAllowed(c) {
          permissions := permissions + [c];
        } else {
          return Failure(NotAllowed);
        }
        j := j + 1;
      }
      assert permissions == per[1];
      if per[0] in permissionList {
        return Failure(Repeated);
      }
      permissionList := permissionList[per[0] := permissions];
      assert segments[i..][1..] == segments[i + 1..];
      i := i + 1;
    }
    return Success(permissionList);
  }

  // ---------------------------------------------------------------------------
  // What one segment compiles to

  /** A well-formed `name+flags` segment compiles to exactly that name and those flags,
      repeats and order of the flag characters kept. */
  lemma CheckValidSegment(name: string, flags: string)
    requires ValidGrant(name, flags)
    ensures CheckSegment(name + "+" + flags) == Success((name, flags))
  {
    SplitAtSeparator(name, flags, '+');
    SplitNoSeparator(flags, '+');
    assert name + "+" + flags == name + ['+'] + flags;
  }

  /** A segment that is empty or starts with `+` has an empty namespace name. */
  lemma CheckEmptyName(rest: string)
    ensures CheckSegment("") == Failure(NoSpace)
    ensures CheckSegment("+" + rest) == Failure(NoSpace)
  {
    SplitAtSeparator("", rest, '+');
    assert "" + ['+'] + rest == "+" + rest;
  }

  /** A namespace name followed by `+` and then nothing or another `+` has an empty flag string. */
  lemma CheckEmptyFlags(name: string, rest: string)
    requires '+' !in name
    ensures CheckSegment(name + "+") == Failure(NoSpace)
    ensures CheckSegment(name + "++" + rest) == Failure(NoSpace)
  {
    SplitAtSeparator(name, "", '+');
    assert name + ['+'] + "" == name + "+";
    SplitAtSeparator(name, "+" + rest, '+');
    assert name + ['+'] + ("+" + rest) == name + "++" + rest;
    SplitAtSeparator("", rest, '+');
    assert "" + ['+'] + rest == "+" + rest;
  }

  /** A non-empty segment without `+` declares no flags at all: wrong arity. */
  lemma CheckNoSeparator(name: string)
    requires name != "" && '+' !in name
    ensures CheckSegment(name) == Failure(NotAllowed)
  {
    SplitNoSeparator(name, '+');
  }

  /** A segment with non-empty first and second parts and a third part: wrong arity. */
  lemma CheckThreeParts(name: string, flags: string, rest: string)
    requires name != "" && flags != "" && '+' !in name && '+' !in flags
    ensures CheckSegment(name + "+" + flags + "+" + rest) == Failure(NotAllowed)
  {
    SplitAtSeparator(flags, rest, '+');
    SplitAtSeparator(name, flags + "+" + rest, '+');
    assert flags + ['+'] + rest == flags + "+" + rest;
    assert name + ['+'] + (flags + "+" + rest) == name + "+" + flags + "+" + rest;
  }

  /** A well-shaped segment with a flag character outside `r`, `w`, `d`. */
  lemma CheckBadFlag(name: string, flags: string, k: nat)
    requires name != "" && flags != "" && '+' !in name && '+' !in flags
    requires k < |flags| && !IsAllowed(flags[k])
    ensures CheckSegment(name + "+" + flags) == Failure(NotAllowed)
  {
    SplitAtSeparator(name, flags, '+');
    SplitNoSeparator(flags, '+');
    assert name + "+" + flags == name + ['+'] + flags;
  }

  // ---------------------------------------------------------------------------
  // What a sequence of segments compiles to

  ghost predicate AllValid(segments: seq<string>) {
    forall i :: 0 <= i < |segments| ==> CheckSegment(segments[i]).Success?
  }

  function Name(segment: string): (name: string)
    requires CheckSegment(segment).Success?
  {
    CheckSegment(segment).value.0
  }

  function Flags(segment: string): (flags: string)
    requires CheckSegment(segment).Success?
  {
    CheckSegment(segment).value.1
  }

  ghost predicate DistinctNames(segments: seq<string>)
    requires AllValid(segments)
  {
    forall i, j :: 0 <= i < j < |segments| ==> Name(segments[i]) != Name(segments[j])
  }

  ghost function Names(segments: seq<string>): set<string>
    requires AllValid(segments)
  {
    set i | 0 <= i < |segments| :: Name(segments[i])
  }

  /** The segment-sequence predicates split into the first segment and the rest. */
  lemma UnfoldSegments(segments: seq<string>)
    requires |segments| > 0
    ensures AllValid(segments) <==> CheckSegment(segments[0]).Success? && AllValid(segments[1..])
    ensures AllValid(segments) ==> Names(segments) == {Name(segments[0])} + Names(segments[1..])
    ensures AllValid(segments) ==>
      (DistinctNames(segments) <==> Name(segments[0]) !in Names(segments[1..]) && DistinctNames(segments[1..]))
  {
    var tail := segments[1..];
    assert forall i :: 0 <= i < |tail| ==> tail[i] == segments[i + 1];
    if AllValid(segments) {
      assert AllValid(tail);
      forall n | n in Names(segments) ensures n in {Name(segments[0])} + Names(tail) {
        var i :| 0 <= i < |segments| && n == Name(segments[i]);
        if i > 0 { assert n == Name(tail[i - 1]); }
      }
      forall n | n in Names(tail) ensures n in Names(segments) {
        var i :| 0 <= i < |tail| && n == Name(tail[i]);
        assert n == Name(segments[i + 1]);
      }
      if Name(segments[0]) !in Names(tail) && DistinctNames(tail) {
        forall i, j | 0 <= i < j < |segments| ensures Name(segments[i]) != Name(segments[j]) {
          if i == 0 {
            assert Name(segments[j]) == Name(tail[j - 1]);
          } else {
            assert Name(segments[i]) == Name(tail[i - 1]) && Name(segments[j]) == Name(tail[j - 1]);
          }
        }
      }
      if DistinctNames(segments) {
        forall i, j | 0 <= i < j < |tail| ensures Name(tail[i]) != Name(tail[j]) {
          assert Name(tail[i]) == Name(segments[i + 1]) && Name(tail[j]) == Name(segments[j + 1]);
        }
        forall j | 0 <= j < |tail| ensures Name(segments[0]) != Name(tail[j]) {
          assert tail[j] == segments[j + 1];
        }
      }
    }
  }

  /** Compilation succeeds exactly when every segment is well formed, no name repeats and no
      name is already in the map; the map then gains every segment's name bound to its flags. */
  lemma {:induction false} ParseSegmentsSuccess(permissionList: map<string, string>, segments: seq<string>)
    ensures ParseSegments(permissionList, segments).Success? <==>
      AllValid(segments) && DistinctNames(segments) && Names(segments) !! permissionList.Keys
    ensures ParseSegments(permissionList, segments).Success? ==>
      && ParseSegments(permissionList, segments).value.Keys == permissionList.Keys + Names(segments)
      && forall i :: 0 <= i < |segments| ==>
           ParseSegments(permissionList, segments).value[Name(segments[i])] == Flags(segments[i])
    decreases |segments|
  {
    if segments != [] {
      UnfoldSegments(segments);
      var tail := segments[1..];
      match CheckSegment(segments[0])
      case Failure(e) =>
      case Success(grant) =>
        if grant.0 !in permissionList {
          var next := permissionList[grant.0 := grant.1];
          ParseSegmentsSuccess(next, tail);
          var r := ParseSegments(permissionList, segments);
          assert r == ParseSegments(next, tail);
          if r.Success? {
            forall i | 0 <= i < |segments| ensures r.value[Name(segments[i])] == Flags(segments[i]) {
              if i > 0 { assert segments[i] == tail[i - 1]; }
            }
          }
        }
    }
  }

  /** Compiling a concatenation compiles the first part, then the second on top of its map. */
  lemma {:induction false} ParseAppend(permissionList: map<string, string>, a: seq<string>, b: seq<string>)
    ensures ParseSegments(permissionList, a + b) ==
      match ParseSegments(permissionList, a)
      case Failure(e) => Failure(e)
      case Success(m) => ParseSegments(m, b)
    decreases |a|
  {
    if a == [] {
      assert a + b == b;
    } else {
      assert (a + b)[0] == a[0] && (a + b)[1..] == a[1..] + b;
      match CheckSegment(a[0])
      case Failure(e) =>
      case Success(grant) =>
        if grant.0 !in permissionList {
          ParseAppend(permissionList[grant.0 := grant.1], a[1..], b);
        }
    }
  }

  /** Fail fast: when the segments before `k` are fine and segment `k` fails its own checks,
      the whole compilation fails with that segment's error, whatever follows. */
  lemma ParseStopsAtInvalid(segments: seq<string>, k: nat)
    requires k < |segments|
    requires AllValid(segments[..k]) && DistinctNames(segments[..k])
    requires CheckSegment(segments[k]).Failure?
    ensures ParseSegments(map[], segments) == Failure(CheckSegment(segments[k]).error)
  {
    assert segments == segments[..k] + segments[k..];
    ParseAppend(map[], segments[..k], segments[k..]);
    ParseSegmentsSuccess(map[], segments[..k]);
    assert segments[k..][0] == segments[k];
  }

  /** Fail fast: when the segments before `k` are fine and segment `k` is well formed but names
      a namespace an earlier segment declared, the compilation fails as repeated, whatever follows. */
  lemma ParseStopsAtRepeat(segments: seq<string>, k: nat)
    requires k < |segments|
    requires AllValid(segments[..k]) && DistinctNames(segments[..k])
    requires CheckSegment(segments[k]).Success? && Name(segments[k]) in Names(segments[..k])
    ensures ParseSegments(map[], segments) == Failure(Repeated)
  {
    assert segments == segments[..k] + segments[k..];
    ParseAppend(map[], segments[..k], segments[k..]);
    ParseSegmentsSuccess(map[], segments[..k]);
    assert segments[k..][0] == segments[k];
  }

  /** Two well-formed segments naming the same namespace make the compilation fail, either as
      repeated or with the error of an earlier bad segment: it never yields a map. */
  lemma RepeatedNameNeverCompiles(segments: seq<string>, i: nat, j: nat)
    requires i < j < |segments|
    requires CheckSegment(segments[i]).Success? && CheckSegment(segments[j]).Success?
    requires Name(segments[i]) == Name(segments[j])
    ensures ParseSegments(map[], segments).Failure?
  {
    ParseSegmentsSuccess(map[], segments);
  }

  // ---------------------------------------------------------------------------
  // Round trip through the textual form

  /** The segment `name+flags` each grant is written as. */
  function Segments(grants: seq<(string, string)>): (segments: seq<string>)
    ensures |segments| == |grants|
    ensures forall i :: 0 <= i < |grants| ==> segments[i] == grants[i].0 + "+" + grants[i].1
  {
    if grants == [] then [] else [grants[0].0 + "+" + grants[0].1] + Segments(grants[1..])
  }

  /** The `--namespace` text that declares the given grants in order. */
  function Render(grants: seq<(string, string)>): (text: string) {
    Join(Segments(grants), ',')
  }

  ghost predicate RenderableGrants(grants: seq<(string, string)>) {
    && |grants| >= 1
    && (forall i :: 0 <= i < |grants| ==> ValidGrant(grants[i].0, grants[i].1) && ',' !in grants[i].0)
    && (forall i, j :: 0 <= i < j < |grants| ==> grants[i].0 != grants[j].0)
  }

  /** A valid grant whose name has no comma is written as a segment with no comma. */
  lemma GrantSegment(name: string, flags: string)
    requires ValidGrant(name, flags) && ',' !in name
    ensures ',' !in name + "+" + flags
    ensures CheckSegment(name + "+" + flags) == Success((name, flags))
  {
    CheckValidSegment(name, flags);
  }

  /** The rendered text splits back into the grants' segments. */
  lemma RenderedSplit(grants: seq<(string, string)>)
    requires RenderableGrants(grants)
    ensures Split(Render(grants), ',') == Segments(grants)
  {
    var segments := Segments(grants);
    forall i | 0 <= i < |segments| ensures ',' !in segments[i] {
      GrantSegment(grants[i].0, grants[i].1);
    }
    SplitJoin(segments, ',');
  }

  /** Each rendered segment compiles to its own grant. */
  lemma RenderedValid(grants: seq<(string, string)>)
    requires RenderableGrants(grants)
    ensures AllValid(Segments(grants))
    ensures forall i :: 0 <= i < |grants| ==> CheckSegment(Segments(grants)[i]) == Success(grants[i])
  {
    var segments := Segments(grants);
    forall i | 0 <= i < |segments| ensures CheckSegment(segments[i]) == Success(grants[i]) {
      GrantSegment(grants[i].0, grants[i].1);
    }
  }

  /** Names of segments known one by one. */
  lemma NamesByIndex(segments: seq<string>, grants: seq<(string, string)>)
    requires |segments| == |grants| && AllValid(segments)
    requires forall i :: 0 <= i < |grants| ==> Name(segments[i]) == grants[i].0
    ensures Names(segments) == set i | 0 <= i < |grants| :: grants[i].0
  {
  }

  /** Compiling the text of distinct, well-formed grants gives back exactly those grants:
      the keys are the declared names and each value is that segment's flags in input order. */
  lemma RenderRoundTrip(grants: seq<(string, string)>)
    requires RenderableGrants(grants)
    ensures ParsePermissions(Render(grants)).Success?
    ensures ParsePermissions(Render(grants)).value.Keys == set i | 0 <= i < |grants| :: grants[i].0
    ensures forall i :: 0 <= i < |grants| ==> ParsePermissions(Render(grants)).value[grants[i].0] == grants[i].1
  {
    var segments := Segments(grants);
    RenderedSplit(grants);
    RenderedValid(grants);
    forall i | 0 <= i < |grants| ensures Name(segments[i]) == grants[i].0 && Flags(segments[i]) == grants[i].1 {
    }
    NamesByIndex(segments, grants);
    ParseSegmentsSuccess(map[], segments);
  }

  // ---------------------------------------------------------------------------
  // One and two segments, written out

  /** A single segment `name+flags` compiles to that one entry: `blog+rr` gives blog -> rr. */
  lemma OneNamespace(name: string, flags: string)
    requires ValidGrant(name, flags) && ',' !in name
    ensures ParsePermissions(name + "+" + flags) == Success(map[name := flags])
  {
    GrantSegment(name, flags);
    SplitNoSeparator(name + "+" + flags, ',');
    var m: map<string, string> := map[];
    assert ParseSegments(m, [name + "+" + flags]) == ParseSegments(m[name := flags], []);
  }

  /** Two well-formed segments: distinct names give both entries (`blog+rw,videos+r` gives
      blog -> rw and videos -> r); the same name twice is rejected (`blog+rw,blog+r`). */
  lemma TwoNamespaces(name1: string, flags1: string, name2: string, flags2: string)
    requires ValidGrant(name1, flags1) && ',' !in name1
    requires ValidGrant(name2, flags2) && ',' !in name2
    ensures ParsePermissions(name1 + "+" + flags1 + "," + name2 + "+" + flags2) ==
      if name1 == name2 then Failure(Repeated) else Success(map[name1 := flags1, name2 := flags2])
  {
    var s1, s2 := name1 + "+" + flags1, name2 + "+" + flags2;
    GrantSegment(name1, flags1);
    GrantSegment(name2, flags2);
    SplitNoSeparator(s2, ',');
    SplitAtSeparator(s1, s2, ',');
    assert s1 + [','] + s2 == name1 + "+" + flags1 + "," + name2 + "+" + flags2;
    var m: map<string, string> := map[];
    assert ParseSegments(m, [s1, s2]) == ParseSegments(m[name1 := flags1], [s2]);
    assert [s1, s2][1..] == [s2];
    if name1 != name2 {
      assert ParseSegments(m[name1 := flags1], [s2]) == ParseSegments(m[name1 := flags1][name2 := flags2], []);
    }
  }
}
