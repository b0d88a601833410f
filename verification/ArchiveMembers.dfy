/** Picking a member out of an archive: the listing walk, the index, and the name that comes back. */
module ArchiveMembers {
  import opened Wrappers

  /** An entry of a tar: its name, and whether it is a regular file. */
  datatype Entry = Entry(name: string, isFile: bool)

  datatype Refusal =
    | NoSuchIndex(held: nat, available: seq<string>)
    | AbsolutePath(candidate: string)
    | DriveTraversal(candidate: string)
    | UnsafeSegment(candidate: string)
    | NamesNothing(member: string)

  // Names

  /** `name.replace("\\", "/")`. */
  function Slashed(name: string): (r: string)
    ensures |r| == |name|
  {
    seq(|name|, i requires 0 <= i < |name| => if name[i] == '\\' then '/' else name[i])
  }

  /** `ntpath.isabs` or a POSIX absolute path, once every separator is a slash. */
  predicate IsAbsolute(s: string) {
    (|s| > 0 && s[0] == '/') || (|s| > 2 && s[1] == ':' && s[2] == '/')
  }

  predicate IsLetter(c: char) {
    'a' <= c <= 'z' || 'A' <= c <= 'Z'
  }

  /** A drive designator with a traversal glued to it, such as `Z:..`. */
  predicate IsDriveTraversal(s: string) {
    |s| >= 4 && IsLetter(s[0]) && s[1] == ':' && s[2] == '.' && s[3] == '.'
  }

  predicate IsControl(c: char) {
    c < ' ' || c == 0x7F as char
  }

  /** Nothing but dots, or a control character somewhere. */
  predicate IsUnsafe(segment: string) {
    (segment != "" && forall i :: 0 <= i < |segment| ==> segment[i] == '.')
    || exists i :: 0 <= i < |segment| && IsControl(segment[i])
  }

  predicate IsNoOp(segment: string) {
    segment == "" || segment == "."
  }

  /** `s.split("/")`. */
  function Split(s: string): (r: seq<string>)
    ensures |r| > 0
  {
    if s == "" then [""]
    else
      var rest := Split(s[1..]);
      if s[0] == '/' then [""] + rest else [[s[0]] + rest[0]] + rest[1..]
  }

  /** `"/".join(segments)`. */
  function Join(segments: seq<string>): string {
    if segments == [] then "" else if |segments| == 1 then segments[0] else Glued(segments[0], Join(segments[1..]))
  }

  function Glued(segment: string, rest: string): string {
    segment + "/" + rest
  }

  /** The segments that say something. */
  function Kept(segments: seq<string>): seq<string> {
    if segments == [] then []
    else if IsNoOp(segments[0]) then Kept(segments[1..])
    else [segments[0]] + Kept(segments[1..])
  }

  predicate AllSafe(segments: seq<string>) {
    segments == [] || (!IsUnsafe(segments[0]) && AllSafe(segments[1..]))
  }

  predicate EndsInSlash(s: string) {
    |s| > 0 && s[|s| - 1] == '/'
  }

  /** The name a member is read under, or why it is refused. */
  function Sanitised(member: string): Result<string, Refusal> {
    var candidate := Slashed(member);
    var kept := Kept(Split(candidate));
    if IsAbsolute(candidate) then Err(AbsolutePath(candidate))
    else if IsDriveTraversal(candidate) then Err(DriveTraversal(candidate))
    else if !AllSafe(kept) then Err(UnsafeSegment(candidate))
    else if kept == [] then Err(NamesNothing(member))
    else Ok(Join(kept) + if EndsInSlash(candidate) then "/" else "")
  }

  function Chosen(members: seq<string>, index: int): Result<string, Refusal> {
    if 0 <= index < |members| then Sanitised(members[index]) else Err(NoSuchIndex(|members|, members))
  }

  /** The member an index names; the segments are checked and gathered in one pass. */
  method MemberAt(members: seq<string>, index: int) returns (r: Result<string, Refusal>)
    ensures r == Chosen(members, index)
    ensures 0 <= index < |members| ==> r == Sanitised(members[index])
    ensures index < 0 || index >= |members| ==> r == Err(NoSuchIndex(|members|, members))
  {
    if !(0 <= index < |members|) {
      return Err(NoSuchIndex(|members|, members));
    }
    var candidate := Slashed(members[index]);
    if IsAbsolute(candidate) {
      return Err(AbsolutePath(candidate));
    }
    if IsDriveTraversal(candidate) {
      return Err(DriveTraversal(candidate));
    }
    var parts := Split(candidate);
    var segments: seq<string> := [];
    for i := 0 to |parts|
      invariant segments == Kept(parts[..i]) && AllSafe(segments)
    {
      KeptNext(parts[..i], parts[i]);
      assert parts[..i + 1] == parts[..i] + [parts[i]];
      if IsNoOp(parts[i]) {
        continue;
      }
      SafeAppend(segments, [parts[i]]);
      if IsUnsafe(parts[i]) {
        SafeParts(parts, i + 1);
        return Err(UnsafeSegment(candidate));
      }
      segments := segments + [parts[i]];
    }
    assert parts[..|parts|] == parts;
    if segments == [] {
      return Err(NamesNothing(members[index]));
    }
    var rejoined := Join(segments);
    if EndsInSlash(candidate) {
      rejoined := rejoined + "/";
    }
    assert Join(segments) + "" == Join(segments);
    r := Ok(rejoined);
  }

  lemma {:induction false} KeptAppend(a: seq<string>, b: seq<string>)
    ensures Kept(a + b) == Kept(a) + Kept(b)
  {
    if a == [] {
      assert a + b == b;
    } else {
      assert (a + b)[1..] == a[1..] + b;
      KeptAppend(a[1..], b);
    }
  }

  lemma {:induction false} KeptNext(a: seq<string>, segment: string)
    ensures Kept(a + [segment]) == if IsNoOp(segment) then Kept(a) else Kept(a) + [segment]
  {
    KeptAppend(a, [segment]);
    assert Kept([segment]) == if IsNoOp(segment) then [] else [segment];
  }

  lemma {:induction false} SafeAppend(a: seq<string>, b: seq<string>)
    ensures AllSafe(a + b) <==> AllSafe(a) && AllSafe(b)
  {
    if a == [] {
      assert a + b == b;
    } else {
      assert (a + b)[1..] == a[1..] + b;
      SafeAppend(a[1..], b);
    }
  }

  lemma {:induction false} SafeParts(parts: seq<string>, k: nat)
    requires k <= |parts|
    ensures AllSafe(Kept(parts)) ==> AllSafe(Kept(parts[..k]))
  {
    assert parts == parts[..k] + parts[k..];
    KeptAppend(parts[..k], parts[k..]);
    SafeAppend(Kept(parts[..k]), Kept(parts[k..]));
  }

  // The name as the archive spells it

  /** Either separator. */
  predicate IsCut(c: char) {
    c == '/' || c == '\\'
  }

  /** The name cut at both separators. */
  function Pieces(name: string): (r: seq<string>)
    ensures |r| > 0
  {
    if name == "" then [""]
    else
      var rest := Pieces(name[1..]);
      if IsCut(name[0]) then [""] + rest else [[name[0]] + rest[0]] + rest[1..]
  }

  predicate EndsInCut(s: string) {
    |s| > 0 && IsCut(s[|s| - 1])
  }

  /** `name[a..b]` runs from one separator, or an end, to the next. */
  ghost predicate PieceAt(name: string, a: nat, b: nat) {
    && a <= b <= |name|
    && (a == 0 || IsCut(name[a - 1]))
    && (b == |name| || IsCut(name[b]))
    && (forall i :: a <= i < b ==> !IsCut(name[i]))
  }

  lemma {:induction false} SlashedCuts(name: string)
    ensures Split(Slashed(name)) == Pieces(name) && (EndsInSlash(Slashed(name)) <==> EndsInCut(name))
  {
    if name != "" {
      assert Slashed(name)[1..] == Slashed(name[1..]);
      SlashedCuts(name[1..]);
    }
  }

  lemma {:induction false} PieceShifts(name: string, a: nat, b: nat)
    requires name != "" && 0 < a <= b <= |name|
    ensures name[a..b] == name[1..][a - 1..b - 1]
    ensures a > 1 || IsCut(name[0]) ==> (PieceAt(name, a, b) <==> PieceAt(name[1..], a - 1, b - 1))
  {
    var rest := name[1..];
    assert forall i :: 0 <= i < |rest| ==> rest[i] == name[i + 1];
    if PieceAt(name, a, b) {
      forall i | a - 1 <= i < b - 1
        ensures !IsCut(rest[i])
      {
        assert !IsCut(name[i + 1]);
      }
    }
    if PieceAt(rest, a - 1, b - 1) {
      forall i | a <= i < b
        ensures !IsCut(name[i])
      {
        assert !IsCut(rest[i - 1]);
      }
    }
  }

  lemma {:induction false} FirstShifts(name: string, b: nat)
    requires name != "" && !IsCut(name[0]) && 0 < b <= |name|
    ensures name[0..b] == [name[0]] + name[1..][0..b - 1]
    ensures PieceAt(name, 0, b) <==> PieceAt(name[1..], 0, b - 1)
  {
    var rest := name[1..];
    assert forall i :: 0 <= i < |rest| ==> rest[i] == name[i + 1];
    if PieceAt(name, 0, b) {
      forall i | 0 <= i < b - 1
        ensures !IsCut(rest[i])
      {
        assert !IsCut(name[i + 1]);
      }
    }
    if PieceAt(rest, 0, b - 1) {
      forall i | 0 <= i < b
        ensures !IsCut(name[i])
      {
        assert i > 0 ==> !IsCut(rest[i - 1]);
      }
    }
  }

  /** Every run between separators is one of the pieces. */
  lemma {:induction false} PieceFound(name: string, a: nat, b: nat) returns (k: nat)
    requires PieceAt(name, a, b)
    ensures k < |Pieces(name)| && Pieces(name)[k] == name[a..b] && (k == 0 <==> a == 0)
  {
    if a == 0 && (b == 0 || name == "") {
      k := 0;
    } else if a == 0 {
      FirstShifts(name, b);
      k := PieceFound(name[1..], 0, b - 1);
    } else {
      PieceShifts(name, a, b);
      k := PieceFound(name[1..], a - 1, b - 1);
      k := if IsCut(name[0]) then k + 1 else k;
    }
  }

  /** Every piece is a run between separators. */
  lemma {:induction false} PieceRuns(name: string, k: nat) returns (a: nat, b: nat)
    requires k < |Pieces(name)|
    ensures PieceAt(name, a, b) && Pieces(name)[k] == name[a..b] && (k == 0 <==> a == 0)
  {
    if name == "" || (IsCut(name[0]) && k == 0) {
      a, b := 0, 0;
    } else {
      a, b := PieceRuns(name[1..], if IsCut(name[0]) then k - 1 else k);
      if k == 0 {
        FirstShifts(name, b + 1);
        a, b := 0, b + 1;
      } else {
        PieceShifts(name, a + 1, b + 1);
        a, b := a + 1, b + 1;
      }
    }
  }

  // Where a name leads

  /** Following a path segment by segment from a directory; nothing when it climbs above the root. */
  function Resolve(at: seq<string>, root: nat, segments: seq<string>): Option<seq<string>>
    decreases |segments|
  {
    if segments == [] then Some(at)
    else if IsNoOp(segments[0]) then Resolve(at, root, segments[1..])
    else if segments[0] == ".." then
      if |at| <= root then None else Resolve(at[..|at| - 1], root, segments[1..])
    else Resolve(at + [segments[0]], root, segments[1..])
  }

  predicate NoSlash(s: string) {
    '/' !in s
  }

  predicate NoSlashes(segments: seq<string>) {
    segments == [] || (NoSlash(segments[0]) && NoSlashes(segments[1..]))
  }

  lemma {:induction false} SplitNoSlash(s: string)
    ensures NoSlashes(Split(s))
  {
    if s != "" {
      SplitNoSlash(s[1..]);
      var rest := Split(s[1..]);
      if s[0] == '/' {
        assert ([""] + rest)[1..] == rest;
      } else {
        assert ([[s[0]] + rest[0]] + rest[1..])[1..] == rest[1..];
      }
    }
  }

  lemma {:induction false} KeptNoSlash(segments: seq<string>)
    requires NoSlashes(segments)
    ensures NoSlashes(Kept(segments))
  {
    if segments != [] {
      KeptNoSlash(segments[1..]);
      var rest := Kept(segments[1..]);
      assert ([segments[0]] + rest)[1..] == rest;
    }
  }

  lemma {:induction false} SplitGlued(a: string, t: string)
    requires NoSlash(a)
    ensures Split(Glued(a, t)) == [a] + Split(t)
  {
    var s := Glued(a, t);
    if a == "" {
      assert s[1..] == t;
    } else {
      assert a == [a[0]] + a[1..];
      assert s[1..] == Glued(a[1..], t);
      SplitGlued(a[1..], t);
      assert ([a[1..]] + Split(t))[1..] == Split(t);
    }
  }

  lemma {:induction false} SplitWhole(a: string)
    requires NoSlash(a)
    ensures Split(a) == [a]
  {
    if a != "" {
      assert a == [a[0]] + a[1..];
      SplitWhole(a[1..]);
    }
  }

  /** Joining segments and splitting again gives the segments back. */
  lemma {:induction false} SplitJoin(segments: seq<string>)
    requires segments != [] && NoSlashes(segments)
    ensures Split(Join(segments)) == segments
  {
    if |segments| == 1 {
      SplitWhole(segments[0]);
    } else {
      SplitJoin(segments[1..]);
      SplitGlued(segments[0], Join(segments[1..]));
      assert segments == [segments[0]] + segments[1..];
    }
  }

  /** A trailing slash adds one empty segment at the end. */
  lemma {:induction false} SplitTrailing(s: string)
    ensures Split(s + "/") == Split(s) + [""]
  {
    if s == "" {
      assert (s + "/")[1..] == "" && Split("") == [""];
    } else {
      assert (s + "/")[1..] == s[1..] + "/" && (s + "/")[0] == s[0];
      SplitTrailing(s[1..]);
    }
  }

  lemma {:induction false} ResolveSkips(at: seq<string>, root: nat, segments: seq<string>)
    ensures Resolve(at, root, Kept(segments)) == Resolve(at, root, segments)
    decreases |segments|
  {
    if segments != [] {
      var rest := Kept(segments[1..]);
      if IsNoOp(segments[0]) {
        ResolveSkips(at, root, segments[1..]);
      } else {
        assert ([segments[0]] + rest)[1..] == rest;
        if segments[0] == ".." {
          if |at| > root {
            ResolveSkips(at[..|at| - 1], root, segments[1..]);
          }
        } else {
          ResolveSkips(at + [segments[0]], root, segments[1..]);
        }
      }
    }
  }

  lemma {:induction false} ResolveSafe(at: seq<string>, root: nat, segments: seq<string>)
    requires AllSafe(segments)
    ensures Resolve(at, root, segments) == Some(at + Kept(segments))
    decreases |segments|
  {
    if segments != [] {
      assert !IsUnsafe(segments[0]);
      assert segments[0] == ".." ==> IsUnsafe(segments[0]);
      if IsNoOp(segments[0]) {
        ResolveSafe(at, root, segments[1..]);
      } else {
        ResolveSafe(at + [segments[0]], root, segments[1..]);
        assert at + [segments[0]] + Kept(segments[1..]) == at + ([segments[0]] + Kept(segments[1..]));
      }
    } else {
      assert at + [] == at;
    }
  }

  lemma {:induction false} KeptTwice(segments: seq<string>)
    ensures Kept(Kept(segments)) == Kept(segments)
  {
    if segments != [] {
      KeptTwice(segments[1..]);
      var rest := Kept(segments[1..]);
      if !IsNoOp(segments[0]) {
        assert ([segments[0]] + rest)[1..] == rest;
      }
    }
  }

  predicate Meaningful(segments: seq<string>) {
    segments == [] || (!IsNoOp(segments[0]) && !IsUnsafe(segments[0]) && Meaningful(segments[1..]))
  }

  lemma {:induction false} KeptMeaningful(segments: seq<string>)
    requires AllSafe(Kept(segments))
    ensures Meaningful(Kept(segments))
  {
    if segments != [] {
      var rest := Kept(segments[1..]);
      if !IsNoOp(segments[0]) {
        assert ([segments[0]] + rest)[1..] == rest;
      }
      KeptMeaningful(segments[1..]);
    }
  }

  /** The pieces of an accepted name are the meaningful pieces of the raw name, in order, with a last
      separator kept; none of its separators is a backslash. */
  lemma {:induction false} AcceptedSegments(member: string)
    requires Sanitised(member).Ok?
    ensures var kept, name := Kept(Pieces(member)), Sanitised(member).value;
      && kept != [] && Meaningful(kept) && NoSlashes(kept) && Plain(kept)
      && name == Join(kept) + (if EndsInCut(member) then "/" else "")
      && Split(name) == Pieces(name) == kept + (if EndsInCut(member) then [""] else [])
      && '\\' !in name
  {
    var candidate := Slashed(member);
    var kept, name := Kept(Split(candidate)), Sanitised(member).value;
    SlashedCuts(member);
    SplitNoSlash(candidate);
    KeptNoSlash(Split(candidate));
    KeptMeaningful(Split(candidate));
    SplitJoin(kept);
    SplitTrailing(Join(kept));
    assert Join(kept) + "" == Join(kept) && kept + [] == kept;
    SplitPlain(candidate);
    JoinPlain(kept);
    SlashedPlain(name);
    SlashedCuts(name);
  }

  /** An accepted name, followed piece by piece from anywhere in the file system, goes straight down and
      never leaves where it started; and it leads where the name the archive gave leads.  A drive
      designator is a plain name here: AcceptedStaysOnDrive gives the other reading. */
  lemma {:induction false} AcceptedStaysInside(member: string, at: seq<string>)
    requires Sanitised(member).Ok?
    ensures var kept := Kept(Pieces(member));
      && kept != [] && Meaningful(kept)
      && Resolve(at, |at|, Pieces(Sanitised(member).value)) == Some(at + kept)
      && Resolve(at, |at|, Pieces(member)) == Some(at + kept)
  {
    var kept := Kept(Pieces(member));
    var result := Pieces(Sanitised(member).value);
    AcceptedSegments(member);
    MeaningfulIsSafe(kept);
    KeptTwice(Pieces(member));
    ResolveSafe(at, |at|, kept);
    ResolveSkips(at, |at|, Pieces(member));
    KeptAppend(kept, if EndsInCut(member) then [""] else []);
    assert Kept(result) == kept;
    ResolveSkips(at, |at|, result);
  }

  lemma {:induction false} MeaningfulIsSafe(segments: seq<string>)
    requires Meaningful(segments)
    ensures AllSafe(segments)
  {
    if segments != [] {
      MeaningfulIsSafe(segments[1..]);
    }
  }

  /** A segment that can name a file: not empty, not all dots, no control character. */
  ghost predicate FileName(segment: string) {
    && segment != ""
    && (exists i :: 0 <= i < |segment| && segment[i] != '.')
    && (forall i :: 0 <= i < |segment| ==> ' ' <= segment[i] != 0x7F as char)
  }

  lemma {:induction false} SafeIsFileName(segment: string)
    ensures FileName(segment) <==> segment != "" && !IsUnsafe(segment)
  {}

  lemma {:induction false} KeptExactly(segments: seq<string>)
    ensures AllSafe(Kept(segments)) <==>
      forall i :: 0 <= i < |segments| ==> IsNoOp(segments[i]) || FileName(segments[i])
    ensures Kept(segments) != [] <==> exists i :: 0 <= i < |segments| && !IsNoOp(segments[i])
  {
    if segments != [] {
      var first, rest := segments[0], segments[1..];
      KeptExactly(rest);
      SafeIsFileName(first);
      assert segments == [first] + rest;
      if !IsNoOp(first) {
        assert Kept(segments)[1..] == Kept(rest);
      }
      assert (forall i :: 0 <= i < |segments| ==> IsNoOp(segments[i]) || FileName(segments[i])) <==>
        (IsNoOp(first) || FileName(first)) && (forall i :: 0 <= i < |rest| ==> IsNoOp(rest[i]) || FileName(rest[i]));
    }
  }

  /** The raw name starts at a root, with or without a drive. */
  predicate Rooted(member: string) {
    (|member| > 0 && IsCut(member[0])) || (|member| > 2 && member[1] == ':' && IsCut(member[2]))
  }

  predicate Glues(member: string) {
    |member| >= 4 && IsLetter(member[0]) && member[1..4] == ":.."
  }

  /** The run `a..b` of the raw name says nothing, or names a file. */
  ghost predicate Harmless(member: string, a: nat, b: nat)
    requires a <= b <= |member|
  {
    member[a..b] == "" || member[a..b] == "." || FileName(member[a..b])
  }

  lemma {:induction false} SameTests(member: string)
    ensures IsAbsolute(Slashed(member)) <==> Rooted(member)
    ensures IsDriveTraversal(Slashed(member)) <==> Glues(member)
  {
    var s := Slashed(member);
    assert forall i :: 0 <= i < |s| ==>
      (s[i] == '/' <==> IsCut(member[i])) && (!IsCut(member[i]) ==> s[i] == member[i]);
    if |member| >= 4 {
      assert member[1..4] == [member[1], member[2], member[3]];
    }
  }

  lemma {:induction false} HarmlessExactly(member: string)
    ensures AllSafe(Kept(Pieces(member))) <==>
      forall a: nat, b: nat :: PieceAt(member, a, b) ==> Harmless(member, a, b)
    ensures Kept(Pieces(member)) != [] <==> !forall a: nat, b: nat :: PieceAt(member, a, b) ==> IsNoOp(member[a..b])
  {
    var parts := Pieces(member);
    KeptExactly(parts);
    forall a: nat, b: nat | PieceAt(member, a, b)
      ensures AllSafe(Kept(parts)) ==> Harmless(member, a, b)
      ensures Kept(parts) == [] ==> IsNoOp(member[a..b])
    {
      var k := PieceFound(member, a, b);
      assert parts[k] == member[a..b];
    }
    forall k: nat | k < |parts|
      ensures (forall a: nat, b: nat :: PieceAt(member, a, b) ==> Harmless(member, a, b)) ==>
        IsNoOp(parts[k]) || FileName(parts[k])
      ensures (forall a: nat, b: nat :: PieceAt(member, a, b) ==> IsNoOp(member[a..b])) ==> IsNoOp(parts[k])
    {
      var a, b := PieceRuns(member, k);
    }
  }

  /** A name is accepted exactly when it has no root in either spelling, no traversal glued to a drive,
      and every run between its separators, slashes and backslashes alike, is empty, `.` or a file name,
      not all of them empty or `.`. */
  lemma {:induction false} AcceptedExactly(member: string)
    ensures Sanitised(member).Ok? <==>
      && !(|member| > 0 && IsCut(member[0])) && !(|member| > 2 && member[1] == ':' && IsCut(member[2]))
      && !(|member| >= 4 && ('a' <= member[0] <= 'z' || 'A' <= member[0] <= 'Z') && member[1..4] == ":..")
      && (forall a: nat, b: nat :: PieceAt(member, a, b) ==> Harmless(member, a, b))
      && !(forall a: nat, b: nat :: PieceAt(member, a, b) ==> IsNoOp(member[a..b]))
  {
    SlashedCuts(member);
    SameTests(member);
    HarmlessExactly(member);
  }

  /** `c` is the name with every separator a slash. */
  ghost predicate Respelled(member: string, c: string) {
    && |c| == |member|
    && forall i :: 0 <= i < |c| ==> c[i] == (if member[i] == '\\' then '/' else member[i])
  }

  /** A refusal names the first test that fails, with the name respelled; a name that names nothing is
      told as the archive gave it. */
  lemma {:induction false} RefusalExactly(member: string)
    requires Sanitised(member).Err?
    ensures match Sanitised(member).error
      case AbsolutePath(c) => Respelled(member, c) && Rooted(member)
      case DriveTraversal(c) => Respelled(member, c) && !Rooted(member) && Glues(member)
      case UnsafeSegment(c) =>
        && Respelled(member, c) && !Rooted(member) && !Glues(member)
        && !(forall a: nat, b: nat :: PieceAt(member, a, b) ==> Harmless(member, a, b))
      case NamesNothing(m) =>
        && m == member && !Rooted(member) && !Glues(member)
        && (forall a: nat, b: nat :: PieceAt(member, a, b) ==> IsNoOp(member[a..b]))
      case NoSuchIndex(_, _) => false
  {
    SlashedCuts(member);
    SameTests(member);
    HarmlessExactly(member);
  }

  /** Between separators of either kind, or an end, two dots or more and nothing else get a name refused. */
  lemma {:induction false} DotsRefused(member: string, a: nat, b: nat)
    requires PieceAt(member, a, b) && b - a >= 2 && forall i :: a <= i < b ==> member[i] == '.'
    ensures Sanitised(member).Err?
  {
    AcceptedExactly(member);
    assert !Harmless(member, a, b);
  }

  /** A name that would climb out of where it started, through slashes or backslashes, is refused. */
  lemma {:induction false} ClimbersRefused(member: string, at: seq<string>)
    requires Resolve(at, |at|, Pieces(member)) == None
    ensures Sanitised(member).Err?
  {
    if Sanitised(member).Ok? {
      AcceptedStaysInside(member, at);
    }
  }

  // The listing

  function Files(entries: seq<Entry>): seq<string> {
    if entries == [] then []
    else if entries[0].isFile then [entries[0].name] + Files(entries[1..])
    else Files(entries[1..])
  }

  lemma {:induction false} FilesAppend(a: seq<Entry>, b: seq<Entry>)
    ensures Files(a + b) == Files(a) + Files(b)
  {
    if a == [] {
      assert a + b == b;
    } else {
      assert (a + b)[1..] == a[1..] + b;
      FilesAppend(a[1..], b);
    }
  }

  /** How many of the first `n` entries are files. */
  function Rank(entries: seq<Entry>, n: nat): (r: nat)
    requires n <= |entries|
  {
    if n == 0 then 0 else Rank(entries, n - 1) + (if entries[n - 1].isFile then 1 else 0)
  }

  lemma {:induction false} RankCounts(entries: seq<Entry>, n: nat)
    requires n <= |entries|
    ensures |Files(entries[..n])| == Rank(entries, n)
  {
    if n > 0 {
      RankCounts(entries, n - 1);
      assert entries[..n] == entries[..n - 1] + [entries[n - 1]];
      FilesAppend(entries[..n - 1], [entries[n - 1]]);
      assert [entries[n - 1]][1..] == [];
    }
  }

  /** Member number `k` of the listing is the entry that is a file and has `k` files before it. */
  lemma {:induction false} FilesByRank(entries: seq<Entry>, i: nat)
    requires i < |entries| && entries[i].isFile
    ensures |Files(entries)| == Rank(entries, |entries|)
    ensures Rank(entries, i) < |Files(entries)| && Files(entries)[Rank(entries, i)] == entries[i].name
  {
    RankCounts(entries, i);
    RankCounts(entries, |entries|);
    assert entries[..|entries|] == entries;
    assert entries == entries[..i] + entries[i..];
    FilesAppend(entries[..i], entries[i..]);
    assert Files(entries[i..]) == [entries[i].name] + Files(entries[i..][1..]);
  }

  /** Every member of the listing is such an entry. */
  lemma {:induction false} FileOfRank(entries: seq<Entry>, n: nat, k: nat) returns (i: nat)
    requires n <= |entries| && k < Rank(entries, n)
    ensures i < n && entries[i].isFile && Rank(entries, i) == k
  {
    if entries[n - 1].isFile && Rank(entries, n - 1) == k {
      i := n - 1;
    } else {
      i := FileOfRank(entries, n - 1, k);
    }
  }

  /** As much of the listing as the index asks for, or all of it when the index is not in it. */
  function Walked(entries: seq<Entry>, index: int): seq<string> {
    if 0 <= index < |Files(entries)| then Files(entries)[..index + 1] else Files(entries)
  }

  /** The file members in archive order, stopping once the one asked for is in hand. */
  method TarFileMembers(archive: seq<Entry>, index: int) returns (members: seq<string>)
    ensures members == Walked(archive, index)
    ensures 0 <= index < |Files(archive)| ==> |members| == index + 1 && members == Files(archive)[..index + 1]
    ensures index < 0 || index >= |Files(archive)| ==> members == Files(archive)
  {
    members := [];
    for i := 0 to |archive|
      invariant members == Files(archive[..i])
      invariant !(0 <= index < |members|)
    {
      FilesAppend(archive[..i], [archive[i]]);
      assert archive[..i + 1] == archive[..i] + [archive[i]];
      assert Files([archive[i]]) == if archive[i].isFile then [archive[i].name] else [];
      if archive[i].isFile {
        members := members + [archive[i].name];
        if 0 <= index < |members| {
          FilesAppend(archive[..i + 1], archive[i + 1..]);
          assert archive == archive[..i + 1] + archive[i + 1..];
          break;
        }
      }
    }
    assert archive[..|archive|] == archive;
  }

  /** Stopping early is invisible: any index, in or out of range, gets the same name or the same
      refusal, with the same count and list, as from the whole listing. */
  lemma {:induction false} EarlyStopInvisible(archive: seq<Entry>, index: int)
    ensures Chosen(Walked(archive, index), index) == Chosen(Files(archive), index)
    ensures Walked(archive, index) == [] <==> Files(archive) == []
  {}

  // The path of a tar

  predicate EndsWith(s: string, suffix: string) {
    |s| >= |suffix| && s[|s| - |suffix|..] == suffix
  }

  predicate Contains(s: string, part: string)
    requires part != ""
  {
    |part| <= |s| && (s[..|part|] == part || Contains(s[1..], part))
  }

  /** A path that goes on after its `.tar` already names the member. */
  predicate NamesMember(path: string) {
    Contains(path, ".tar")
    && !EndsWith(path, ".tar") && !EndsWith(path, ".tgz") && !EndsWith(path, ".tar.gz") && !EndsWith(path, ".tar.bz2")
  }

  ghost predicate OccursAt(s: string, part: string, i: nat) {
    i + |part| <= |s| && s[i..i + |part|] == part
  }

  lemma {:induction false} ContainsExactly(s: string, part: string)
    requires part != ""
    ensures Contains(s, part) <==> exists i: nat :: OccursAt(s, part, i)
  {
    if |part| <= |s| {
      ContainsExactly(s[1..], part);
      assert OccursAt(s, part, 0) <==> s[..|part|] == part;
      forall i: nat
        ensures OccursAt(s[1..], part, i) <==> OccursAt(s, part, i + 1)
      {
        if i + 1 + |part| <= |s| {
          assert s[1..][i..i + |part|] == s[i + 1..i + 1 + |part|];
        }
      }
      if i: nat :| OccursAt(s, part, i) && i > 0 {
        assert OccursAt(s[1..], part, i - 1);
      }
    } else {
      assert forall i: nat :: !OccursAt(s, part, i);
    }
  }

  /** Which paths name their member: `.tar` occurs in them, and they end in none of the four suffixes. */
  lemma {:induction false} NamesMemberExactly(path: string)
    ensures NamesMember(path) <==>
      && (exists i: nat :: OccursAt(path, ".tar", i))
      && !(|path| >= 4 && (path[|path| - 4..] == ".tar" || path[|path| - 4..] == ".tgz"))
      && !(|path| >= 7 && path[|path| - 7..] == ".tar.gz")
      && !(|path| >= 8 && path[|path| - 8..] == ".tar.bz2")
  {
    ContainsExactly(path, ".tar");
  }

  const VSITAR := "/vsitar/"

  /** The GDAL path; the archive is `None` when it cannot be listed, and nothing is refused then. */
  method GetTarPath(path: string, archive: Option<seq<Entry>>, index: int) returns (r: Result<string, Refusal>)
    ensures NamesMember(path) || archive.None? || Files(archive.value) == [] ==> r == Ok("/vsitar/" + path)
    ensures !(NamesMember(path) || archive.None? || Files(archive.value) == []) ==>
      r == match Chosen(Files(archive.value), index)
           case Ok(name) => Ok("/vsitar/" + path + "/" + name)
           case Err(e) => Err(e)
  {
    if NamesMember(path) || archive.None? {
      return Ok(VSITAR + path);
    }
    var members := TarFileMembers(archive.value, index);
    EarlyStopInvisible(archive.value, index);
    if members == [] {
      return Ok(VSITAR + path);
    }
    var name := MemberAt(members, index);
    match name
    case Ok(n) => r := Ok(VSITAR + path + "/" + n);
    case Err(e) => r := Err(e);
  }

  // Accepting a name twice

  predicate Plain(segments: seq<string>) {
    segments == [] || ('\\' !in segments[0] && Plain(segments[1..]))
  }

  lemma {:induction false} SplitPlain(s: string)
    requires '\\' !in s
    ensures Plain(Split(s)) && Plain(Kept(Split(s)))
  {
    if s != "" {
      SplitPlain(s[1..]);
      var rest := Split(s[1..]);
      if s[0] == '/' {
        assert ([""] + rest)[1..] == rest;
      } else {
        assert ([[s[0]] + rest[0]] + rest[1..])[1..] == rest[1..];
      }
    }
    KeptPlain(Split(s));
  }

  lemma {:induction false} KeptPlain(segments: seq<string>)
    requires Plain(segments)
    ensures Plain(Kept(segments))
  {
    if segments != [] {
      KeptPlain(segments[1..]);
      var rest := Kept(segments[1..]);
      assert ([segments[0]] + rest)[1..] == rest;
    }
  }

  lemma {:induction false} JoinPlain(segments: seq<string>)
    requires Plain(segments)
    ensures '\\' !in Join(segments)
  {
    if |segments| > 1 {
      JoinPlain(segments[1..]);
    }
  }

  lemma {:induction false} SlashedPlain(s: string)
    requires '\\' !in s
    ensures Slashed(s) == s
  {}

  lemma {:induction false} JoinEndsWell(segments: seq<string>)
    requires segments != [] && Meaningful(segments) && NoSlashes(segments)
    ensures Join(segments) != "" && !EndsInSlash(Join(segments))
  {
    if |segments| > 1 {
      JoinEndsWell(segments[1..]);
    }
  }

  // The tests that come before the normalising

  /** A drive designator on its own with more after it, as `C:` in `C:/x`. */
  predicate LeadsWithDrive(kept: seq<string>, slash: bool) {
    kept != [] && |kept[0]| == 2 && kept[0][1] == ':' && (|kept| > 1 || slash)
  }

  /** A drive designator with a traversal glued to it, as `Z:..`. */
  predicate LeadsWithTraversal(kept: seq<string>) {
    kept != [] && |kept[0]| >= 4 && IsLetter(kept[0][0]) && kept[0][1..4] == ":.."
  }

  /** How a joined name starts: the first segment, and nothing or a slash after it. */
  lemma {:induction false} JoinedFirst(kept: seq<string>, tail: string)
    requires kept != [] && (tail == "" || tail == "/")
    ensures var name, n := Join(kept) + tail, |kept[0]|;
      && |name| >= n && name[..n] == kept[0]
      && (|name| > n <==> |kept| > 1 || tail == "/")
      && (|name| > n ==> name[n] == '/')
  {
    if |kept| > 1 {
      assert Join(kept) == kept[0] + ("/" + Join(kept[1..]));
    }
  }

  lemma {:induction false} JoinedLooks(kept: seq<string>, tail: string)
    requires kept != [] && kept[0] != "" && NoSlash(kept[0]) && (tail == "" || tail == "/")
    ensures IsAbsolute(Join(kept) + tail) <==> LeadsWithDrive(kept, tail == "/")
    ensures IsDriveTraversal(Join(kept) + tail) <==> LeadsWithTraversal(kept)
  {
    var name, first := Join(kept) + tail, kept[0];
    JoinedFirst(kept, tail);
    assert forall i :: 0 <= i < |first| ==> name[i] == first[i] && first[i] != '/';
    if |first| >= 4 {
      assert first[1..4] == [first[1], first[2], first[3]];
    }
  }

  /** The absolute-path tests come before the name is normalised, so a name can come out that they
      refuse.  It comes out absolute exactly when its first kept piece is a drive with something after
      it, a drive traversal exactly when that piece is one, and it is accepted again, unchanged, exactly
      when neither holds. */
  lemma {:induction false} AcceptedAgain(member: string)
    requires Sanitised(member).Ok?
    ensures var kept, slash := Kept(Pieces(member)), EndsInCut(member);
      var name := Sanitised(member).value;
      && (IsAbsolute(name) <==> LeadsWithDrive(kept, slash))
      && (IsDriveTraversal(name) <==> LeadsWithTraversal(kept))
      && (Sanitised(name) == Ok(name) <==> !LeadsWithDrive(kept, slash) && !LeadsWithTraversal(kept))
  {
    var kept := Kept(Pieces(member));
    AcceptedSegments(member);
    JoinedLooks(kept, if EndsInCut(member) then "/" else "");
    AcceptedAsIs(member);
  }

  lemma {:induction false} AcceptedAsIs(member: string)
    requires Sanitised(member).Ok?
    ensures var name := Sanitised(member).value;
      Sanitised(name) == Ok(name) <==> !IsAbsolute(name) && !IsDriveTraversal(name)
  {
    var kept := Kept(Pieces(member));
    var name := Sanitised(member).value;
    AcceptedSegments(member);
    MeaningfulIsSafe(kept);
    SlashedPlain(name);
    JoinEndsWell(kept);
    KeptTwice(Pieces(member));
    KeptAppend(kept, if EndsInCut(member) then [""] else []);
    assert Kept(Split(name)) == kept;
    assert EndsInSlash(name) == EndsInCut(member);
  }

  /** Following a name where an absolute path and a drive traversal leave the directory too. */
  ghost function ResolveOnDrive(at: seq<string>, name: string): Option<seq<string>> {
    if IsAbsolute(name) || IsDriveTraversal(name) then None else Resolve(at, |at|, Pieces(name))
  }

  /** Read that way, an accepted name stays inside exactly when its first kept piece is neither a drive
      with something after it nor a drive traversal. */
  lemma {:induction false} AcceptedStaysOnDrive(member: string, at: seq<string>)
    requires Sanitised(member).Ok?
    ensures var kept, slash := Kept(Pieces(member)), EndsInCut(member);
      var end := ResolveOnDrive(at, Sanitised(member).value);
      if LeadsWithDrive(kept, slash) || LeadsWithTraversal(kept) then end == None else end == Some(at + kept)
  {
    AcceptedAgain(member);
    AcceptedStaysInside(member, at);
  }

  predicate PlainName(segment: string) {
    !IsNoOp(segment) && !IsUnsafe(segment) && NoSlash(segment) && '\\' !in segment
  }

  lemma {:induction false} DotSplit(a: string, b: string)
    requires PlainName(a) && PlainName(b)
    ensures Split(Glued(".", Glued(a, b))) == [".", a, b]
    ensures Kept([".", a, b]) == [a, b] && AllSafe([a, b]) && Join([a, b]) == Glued(a, b)
  {
    SplitWhole(b);
    SplitGlued(a, b);
    SplitGlued(".", Glued(a, b));
    assert [".", a, b][1..] == [a, b] && [a, b][1..] == [b] && [b][1..] == [];
    assert Kept([b]) == [b] && AllSafe([b]);
    assert Kept([a, b]) == [a] + [b] == [a, b];
    assert Kept([".", a, b]) == Kept([a, b]);
    assert Join([a, b]) == Glued(a, Join([b]));
  }

  /** A leading `./` in front of two plain names is dropped. */
  lemma {:induction false} DotDropped(a: string, b: string)
    requires PlainName(a) && PlainName(b)
    ensures Sanitised(Glued(".", Glued(a, b))) == Ok(Glued(a, b))
  {
    var s := Glued(".", Glued(a, b));
    SlashedPlain(s);
    DotSplit(a, b);
    assert s[0] == '.' && s[1] == '/' && s[|s| - 1] == b[|b| - 1];
    assert Glued(a, b) + "" == Glued(a, b);
  }

  /** `./C:/x` is accepted as `C:/x`, which is refused as absolute. */
  lemma {:induction false} DriveComesOut() returns (member: string, name: string)
    ensures member == "./C:/x" && name == "C:/x"
    ensures Sanitised(member) == Ok(name) && Sanitised(name) == Err(AbsolutePath(name))
  {
    var a, b := "C:", "x";
    member, name := Glued(".", Glued(a, b)), Glued(a, b);
    DotDropped(a, b);
    SlashedPlain(name);
  }

  /** `./Z:../x` is accepted as `Z:../x`, which is refused as a drive traversal. */
  lemma {:induction false} TraversalComesOut() returns (member: string, name: string)
    ensures member == "./Z:../x" && name == "Z:../x"
    ensures Sanitised(member) == Ok(name) && Sanitised(name) == Err(DriveTraversal(name))
  {
    var a, b := "Z:..", "x";
    member, name := Glued(".", Glued(a, b)), Glued(a, b);
    assert a[0] == 'Z';
    DotDropped(a, b);
    SlashedPlain(name);
  }
}
