/** Local artifact storage: sanitised path segments, and a copy that stays below its root. */
module ArtifactPaths {
  import opened Text

  /** The class `[A-Za-z0-9._-]`. */
  predicate Allowed(c: char) {
    'A' <= c <= 'Z' || 'a' <= c <= 'z' || '0' <= c <= '9' || c == '.' || c == '_' || c == '-'
  }

  predicate Edge(c: char) {
    c == '.' || c == '_'
  }

  predicate AllAllowed(s: string) {
    forall i :: 0 <= i < |s| ==> Allowed(s[i])
  }

  /** `re.sub(r"[^A-Za-z0-9._-]+", "_", s)`: each maximal run of other characters becomes one `_`. */
  function Substitute(s: string): (r: string)
    ensures AllAllowed(r)
    decreases |s|
  {
    if s == "" then ""
    else if Allowed(s[0]) then [s[0]] + Substitute(s[1..])
    else "_" + Substitute(DropOthers(s))
  }

  function DropOthers(s: string): (r: string)
    ensures |r| <= |s| && (s != "" && !Allowed(s[0]) ==> |r| < |s|)
  {
    if s == "" || Allowed(s[0]) then s else DropOthers(s[1..])
  }

  /** `str.strip("._")` */
  function StripEdges(s: string): string {
    Strip(s, Edge)
  }

  const SEGMENT_LIMIT := 160
  const NAME_LIMIT := 200

  function Sanitise(s: string, limit: nat, fallback: string): string {
    var result := StripEdges(Substitute(s));
    var cut := if |result| <= limit then result else result[..limit];
    if cut == "" then fallback else cut
  }

  /** `_safe_path_segment` */
  function SafePathSegment(value: string): string {
    Sanitise(value, SEGMENT_LIMIT, "local")
  }

  /** `_safe_filename`, given `Path(value).name` */
  function SafeFilename(leaf: string): string {
    Sanitise(Trim(leaf), NAME_LIMIT, "artifact")
  }

  /** A component that names a plain child: no separator, no dot name, not empty. */
  predicate SafeComponent(s: string) {
    s != "" && AllAllowed(s) && s != "." && s != ".."
  }

  // ---------------------------------------------------------------- the sanitiser

  lemma PartIsAllowed(a: string, b: string, c: string)
    ensures AllAllowed(a + b + c) ==> AllAllowed(b)
  {
    hide Allowed;
    assert forall i :: 0 <= i < |b| ==> b[i] == (a + b + c)[|a| + i];
  }

  lemma StripFacts(s: string)
    ensures var r := StripEdges(s);
            (AllAllowed(s) ==> AllAllowed(r)) && (r != "" ==> !Edge(r[0]) && !Edge(r[|r| - 1]))
  {
    hide Strip, Allowed, Edge;
    var lead, core, tail := StripSplits(s, Edge);
    PartIsAllowed(lead, core, tail);
  }

  /**
   * `r` is the substituted text without the `.` and `_` at its ends: all of it when it fits, else its first
   * `limit` characters, and the fallback when nothing is left.
   */
  ghost predicate IsCleaned(r: string, s: string, limit: nat, fallback: string) {
    exists lead, core, tail ::
      && Substitute(s) == lead + core + tail && Only(lead, Edge) && Only(tail, Edge) && IsCore(core, Edge)
      && r == if core == "" then fallback else if |core| <= limit then core else core[..limit]
  }

  /** What the sanitiser keeps, for every text. */
  lemma SanitiseKeepsTheCore(s: string, limit: nat, fallback: string)
    requires 0 < limit
    ensures IsCleaned(Sanitise(s, limit, fallback), s, limit, fallback)
  {
    hide Strip, Edge, Substitute;
    var lead, core, tail := StripSplits(Substitute(s), Edge);
  }

  /** So there is no other text it could give: what is kept does not depend on how the text is cut. */
  lemma CleanedOnce(r: string, s: string, limit: nat, fallback: string)
    requires 0 < limit
    ensures IsCleaned(r, s, limit, fallback) ==> r == Sanitise(s, limit, fallback)
  {
    hide Strip, Edge, Substitute;
    if IsCleaned(r, s, limit, fallback) {
      var lead, core, tail :|
        && Substitute(s) == lead + core + tail && Only(lead, Edge) && Only(tail, Edge) && IsCore(core, Edge)
        && r == if core == "" then fallback else if |core| <= limit then core else core[..limit];
      StripOf(lead, core, tail, Edge);
    }
  }

  /** The fallback is for a text of which only `.` and `_` are left; any other keeps something, first a character that is neither. */
  lemma FallbackIff(s: string, limit: nat, fallback: string)
    requires 0 < limit
    ensures Only(Substitute(s), Edge) ==> Sanitise(s, limit, fallback) == fallback
    ensures !Only(Substitute(s), Edge) ==>
      var r := Sanitise(s, limit, fallback); r != "" && !Edge(r[0]) && Contains(Substitute(s), r)
  {
    hide Strip, Substitute;
    var text := Substitute(s);
    var lead, core, tail := StripSplits(text, Edge);
    EmptyCoreIff(lead, core, tail, Edge);
    if core != "" {
      var r := Sanitise(s, limit, fallback);
      assert text == lead + r + (core[|r|..] + tail) && r == core[..|r|];
      ContainsInMiddle(lead, r, core[|r|..] + tail, r) by { assert At(r, 0, r); }
    }
  }

  /** Every sanitised text is a safe component within the limit that starts with no `.` or `_`. */
  lemma SanitisedIsSafe(s: string, limit: nat, fallback: string)
    requires 0 < limit && SafeComponent(fallback) && |fallback| <= limit && !Edge(fallback[0])
    ensures var r := Sanitise(s, limit, fallback);
            SafeComponent(r) && |r| <= limit && !Edge(r[0])
  {
    StripFacts(Substitute(s));
  }

  lemma {:induction false} SubstituteKeepsAllowed(s: string)
    requires AllAllowed(s)
    ensures Substitute(s) == s
    decreases |s|
  {
    if s != "" {
      assert Allowed(s[0]);
      SubstituteKeepsAllowed(s[1..]);
      assert [s[0]] + s[1..] == s;
    }
  }

  /** Allowed text is copied and each maximal run of other characters becomes one `_`. */
  lemma {:induction false} SubstituteByRuns(keep: string, run: string, rest: string)
    requires AllAllowed(keep) && run != "" && (forall i :: 0 <= i < |run| ==> !Allowed(run[i]))
    requires rest != "" ==> Allowed(rest[0])
    ensures Substitute(keep + run + rest) == keep + "_" + Substitute(rest)
    decreases |keep|
  {
    hide DropOthers;
    var whole := keep + run + rest;
    if keep == "" {
      assert whole == run + rest;
      DropRun(run, rest);
      assert Substitute(whole) == "_" + Substitute(rest);
    } else {
      assert whole[1..] == keep[1..] + run + rest;
      SubstituteByRuns(keep[1..], run, rest);
      assert Substitute(whole) == [keep[0]] + Substitute(whole[1..]);
      assert [keep[0]] + (keep[1..] + "_" + Substitute(rest)) == keep + "_" + Substitute(rest);
    }
  }

  lemma {:induction false} DropRun(run: string, rest: string)
    requires forall i :: 0 <= i < |run| ==> !Allowed(run[i])
    requires rest != "" ==> Allowed(rest[0])
    ensures DropOthers(run + rest) == rest
    decreases |run|
  {
    if run == "" {
      assert run + rest == rest;
    } else {
      assert (run + rest)[1..] == run[1..] + rest;
      DropRun(run[1..], rest);
    }
  }

  /** Sanitising a sanitised text only strips what truncation exposed at its end. */
  lemma SanitiseAgain(r: string, limit: nat, fallback: string)
    requires r != "" && AllAllowed(r) && |r| <= limit && !Edge(r[0])
    ensures Sanitise(r, limit, fallback) == StripRight(r, Edge) != ""
    ensures StripRight(r, Edge) == r <==> !Edge(r[|r| - 1])
  {
    SubstituteKeepsAllowed(r);
    assert StripLeft(r, Edge) == r;
    StripRightKeepsFirst(r);
  }

  lemma {:induction false} StripRightKeepsFirst(r: string)
    requires r != "" && !Edge(r[0])
    ensures StripRight(r, Edge) != ""
    decreases |r|
  {
    if Edge(r[|r| - 1]) {
      StripRightKeepsFirst(r[..|r| - 1]);
    }
  }

  /** Two applications reach a fixed point. */
  lemma FixedAfterTwo(s: string, limit: nat, fallback: string)
    requires 0 < limit && SafeComponent(fallback) && |fallback| <= limit && !Edge(fallback[0])
    ensures var twice := Sanitise(Sanitise(s, limit, fallback), limit, fallback);
            Sanitise(twice, limit, fallback) == twice
  {
    var once := Sanitise(s, limit, fallback);
    SanitisedIsSafe(s, limit, fallback);
    SanitiseAgain(once, limit, fallback);
    var twice := StripRight(once, Edge);
    assert twice[0] == once[0];
    SanitiseAgain(twice, limit, fallback);
  }

  /** One application is enough exactly when truncation does not expose a `.` or `_` at the end. */
  lemma FixedAfterOneIff(s: string, limit: nat, fallback: string)
    requires 0 < limit && SafeComponent(fallback) && |fallback| <= limit
    requires !Edge(fallback[0]) && !Edge(fallback[|fallback| - 1])
    ensures var full := StripEdges(Substitute(s));
            var once := Sanitise(s, limit, fallback);
            Sanitise(once, limit, fallback) == once <==> |full| <= limit || !Edge(full[limit - 1])
  {
    var full, once := StripEdges(Substitute(s)), Sanitise(s, limit, fallback);
    SanitisedIsSafe(s, limit, fallback);
    SanitiseAgain(once, limit, fallback);
    LastOfCut(s, limit, fallback);
  }

  lemma LastOfCut(s: string, limit: nat, fallback: string)
    requires 0 < limit && fallback != "" && !Edge(fallback[|fallback| - 1])
    ensures var full := StripEdges(Substitute(s));
            var once := Sanitise(s, limit, fallback);
            once != "" && (!Edge(once[|once| - 1]) <==> |full| <= limit || !Edge(full[limit - 1]))
  {
    StripFacts(Substitute(s));
  }

  /** A segment for which one application is not enough. */
  lemma OneIsNotEnough()
    ensures var s := seq(159, _ => 'a') + "_b";
            SafePathSegment(SafePathSegment(s)) != SafePathSegment(s)
  {
    var s := seq(159, _ => 'a') + "_b";
    SubstituteKeepsAllowed(s);
    assert StripEdges(s) == s;
    FixedAfterOneIff(s, SEGMENT_LIMIT, "local");
  }

  // ---------------------------------------------------------------- resolving a destination

  /** A resolved path: the components below the filesystem root. */
  type Components = seq<string>

  /** Splitting at the separators, as joining a text to a path does; empty pieces disappear. */
  function SplitPath(s: string, seps: set<char>): Components
    decreases |s|
  {
    if s == "" then []
    else
      var n := PieceEnd(s, seps);
      var rest := if n == |s| then [] else SplitPath(s[n + 1..], seps);
      if n == 0 then rest else [s[..n]] + rest
  }

  function PieceEnd(s: string, seps: set<char>): (n: nat)
    ensures n <= |s| && (n < |s| ==> s[n] in seps)
    ensures forall i :: 0 <= i < n ==> s[i] !in seps
  {
    if s == "" || s[0] in seps then 0 else 1 + PieceEnd(s[1..], seps)
  }

  /** `(base / text).resolve()` on a resolved base, without symbolic links. */
  function Resolve(base: Components, pieces: Components): Components
    decreases |pieces|
  {
    if pieces == [] then base
    else if pieces[0] == "." then Resolve(base, pieces[1..])
    else if pieces[0] == ".." then Resolve(if base == [] then [] else base[..|base| - 1], pieces[1..])
    else Resolve(base + [pieces[0]], pieces[1..])
  }

  function JoinResolved(base: Components, text: string, seps: set<char>): Components {
    Resolve(base, SplitPath(text, seps))
  }

  /** `path.relative_to(base)` raises unless this holds. */
  predicate Below(path: Components, base: Components) {
    base <= path
  }

  /** Separators and a drive mark are never allowed characters. */
  predicate ForeignSeparators(seps: set<char>) {
    forall c :: c in seps ==> !Allowed(c)
  }

  lemma SafeComponentIsOnePiece(base: Components, s: string, seps: set<char>)
    requires SafeComponent(s) && ForeignSeparators(seps)
    ensures JoinResolved(base, s, seps) == base + [s]
  {
    assert forall i :: 0 <= i < |s| ==> Allowed(s[i]) && s[i] !in seps;
    assert PieceEnd(s, seps) == |s|;
    assert s[..|s|] == s;
    assert SplitPath(s, seps) == [s];
    assert [s][1..] == [];
    assert Resolve(base, [s]) == Resolve(base + [s], []);
  }

  /** For every run id and type name the artifact directory is exactly two components below the root. */
  lemma DestinationStaysBelow(root: Components, runId: string, typeName: string, seps: set<char>)
    requires ForeignSeparators(seps)
    ensures var dir := JoinResolved(JoinResolved(root, SafePathSegment(runId), seps), SafePathSegment(typeName), seps);
            && dir == root + [SafePathSegment(runId), SafePathSegment(typeName)]
            && Below(dir, root)
  {
    SanitisedIsSafe(runId, SEGMENT_LIMIT, "local");
    SanitisedIsSafe(typeName, SEGMENT_LIMIT, "local");
    SafeComponentIsOnePiece(root, SafePathSegment(runId), seps);
    SafeComponentIsOnePiece(root + [SafePathSegment(runId)], SafePathSegment(typeName), seps);
    assert root + [SafePathSegment(runId)] + [SafePathSegment(typeName)] == root + [SafePathSegment(runId), SafePathSegment(typeName)];
  }

  /** Without the sanitiser the containment check would be needed. */
  lemma RawSegmentEscapes(root: Components, seps: set<char>)
    requires root != [] && '/' in seps && '.' !in seps
    ensures !Below(JoinResolved(root, "..", seps), root)
  {
    assert PieceEnd("..", seps) == 2 by {
      assert PieceEnd("."[1..], seps) == 0;
      assert ".."[1..] == ".";
    }
    assert ".."[..2] == "..";
    assert SplitPath("..", seps) == [".."];
    assert [".."][1..] == [];
  }

  lemma ThreeSafeComponents(runId: string, typeName: string, leaf: string, uuid: string)
    requires AllAllowed(uuid)
    ensures SafeComponent(SafePathSegment(runId)) && SafeComponent(SafePathSegment(typeName))
    ensures SafeComponent(uuid + "-" + SafeFilename(leaf))
    ensures IsCleaned(SafePathSegment(runId), runId, SEGMENT_LIMIT, "local")
    ensures IsCleaned(SafePathSegment(typeName), typeName, SEGMENT_LIMIT, "local")
    ensures IsCleaned(SafeFilename(leaf), Trim(leaf), NAME_LIMIT, "artifact")
  {
    hide Sanitise, Trim, IsCleaned;
    SanitisedIsSafe(Trim(leaf), NAME_LIMIT, "artifact");
    SanitisedIsSafe(runId, SEGMENT_LIMIT, "local");
    SanitisedIsSafe(typeName, SEGMENT_LIMIT, "local");
    SanitiseKeepsTheCore(Trim(leaf), NAME_LIMIT, "artifact");
    SanitiseKeepsTheCore(runId, SEGMENT_LIMIT, "local");
    SanitiseKeepsTheCore(typeName, SEGMENT_LIMIT, "local");
    assert (uuid + "-" + SafeFilename(leaf))[|uuid|] == '-';
  }

  /** `path` ends with the cleaned run id, the cleaned type, and the id before the cleaned name, in that order. */
  ghost predicate EndsInThree(path: Components, root: Components, runId: string, typeName: string, leaf: string, uuid: string) {
    exists run, kind, name ::
      && path == root + [run, kind, uuid + "-" + name]
      && IsCleaned(run, runId, SEGMENT_LIMIT, "local") && IsCleaned(kind, typeName, SEGMENT_LIMIT, "local")
      && IsCleaned(name, Trim(leaf), NAME_LIMIT, "artifact")
  }

  datatype CopyResult = Stored(relative: Components) | OutsideRoot | SizeMismatch | OutsideWorkspace

  class LocalArtifactSink {
    const root: Components
    const workspace: Components
    const seps: set<char>
    var files: map<Components, string>

    constructor (root: Components, workspace: Components, seps: set<char>)
      requires ForeignSeparators(seps)
      ensures this.root == root && this.workspace == workspace && this.seps == seps && files == map[]
    {
      this.root, this.workspace, this.seps, files := root, workspace, seps, map[];
    }

    /** Where an artifact lands: `<root>/<run>/<type>/<uuid>-<name>`. */
    function Destination(runId: string, typeName: string, leaf: string, uuid: string): Components {
      root + [SafePathSegment(runId), SafePathSegment(typeName), uuid + "-" + SafeFilename(leaf)]
    }

    /**
     * `_copy`: `content` is what the copy reads, `uuid` the fresh hexadecimal id. The
     * containment check never fires; a size mismatch leaves nothing behind.
     */
    method Copy(runId: string, typeName: string, leaf: string, uuid: string, content: string, expectedSize: nat)
      returns (result: CopyResult)
      requires ForeignSeparators(seps) && AllAllowed(uuid)
      modifies this`files
      ensures result != OutsideRoot
      ensures var destination := Destination(runId, typeName, leaf, uuid);
        && |destination| == |root| + 3 && Below(destination, root)
        && EndsInThree(destination, root, runId, typeName, leaf, uuid)
        && (forall k :: |root| <= k < |destination| ==> SafeComponent(destination[k]))
        && (result == SizeMismatch <==> |content| != expectedSize)
        && (result == SizeMismatch ==> files == old(files) - {destination})
        && (result != SizeMismatch ==> files == old(files)[destination := content])
        && (result.Stored? ==> workspace + result.relative == destination)
        && (result == OutsideWorkspace ==> !Below(destination, workspace))
    {
      hide SafePathSegment, SafeFilename, SafeComponent, JoinResolved, ForeignSeparators, AllAllowed, IsCleaned, Trim;
      var run := SafePathSegment(runId);
      var kind := SafePathSegment(typeName);
      DestinationStaysBelow(root, runId, typeName, seps);
      var directory := JoinResolved(JoinResolved(root, run, seps), kind, seps);
      if !Below(directory, root) {
        return OutsideRoot;
      }
      var safeName := SafeFilename(leaf);
      ThreeSafeComponents(runId, typeName, leaf, uuid);
      var name := uuid + "-" + safeName;
      var destination := directory + [name];
      assert destination == Destination(runId, typeName, leaf, uuid);
      files := files[destination := content];
      assert files - {destination} == old(files) - {destination};
      if |files[destination]| != expectedSize {
        files := files - {destination};
        return SizeMismatch;
      }
      if !Below(destination, workspace) {
        return OutsideWorkspace;
      }
      return Stored(destination[|workspace|..]);
    }
  }
}
