/** The flow.py patch of _materialize_demo_ocr_flows.py: import the OCR login, replace the old one. */
module FlowPatch {
  import opened Text
  import opened Lines

  /** `raw.strip() == ""` */
  predicate Blank(raw: string) {
    forall i :: 0 <= i < |raw| ==> IsSpace(raw[i])
  }

  lemma BlankIffTrimmed(raw: string)
    ensures Blank(raw) <==> Trim(raw) == ""
  {
    hide IsSpace, Strip;
    var lead, core, tail := StripSplits(raw, IsSpace);
    EmptyCoreIff(lead, core, tail, IsSpace);
  }

  /** `len(raw) - len(raw.lstrip(" "))`: leading spaces only, tabs do not count. */
  function Indent(raw: string): (n: nat)
    ensures n <= |raw| && (n < |raw| ==> raw[n] != ' ')
    ensures forall i :: 0 <= i < n ==> raw[i] == ' '
  {
    if raw != "" && raw[0] == ' ' then 1 + Indent(raw[1..]) else 0
  }

  /** A line that belongs to the body of a `def` whose header is indented by `indent`. */
  predicate InBody(raw: string, indent: nat) {
    Blank(raw) || Indent(raw) > indent
  }

  function FirstHeader(lines: seq<string>, prefix: string): (i: nat)
    ensures i <= |lines| && (i < |lines| ==> StartsWith(lines[i], prefix))
    ensures forall k :: 0 <= k < i ==> !StartsWith(lines[k], prefix)
  {
    if lines == [] || StartsWith(lines[0], prefix) then 0 else 1 + FirstHeader(lines[1..], prefix)
  }

  function BodyEnd(lines: seq<string>, from: nat, indent: nat): (end: nat)
    requires from <= |lines|
    ensures from <= end <= |lines|
    ensures forall k :: from <= k < end ==> InBody(lines[k], indent)
    ensures end < |lines| ==> !InBody(lines[end], indent)
    decreases |lines| - from
  {
    if from < |lines| && InBody(lines[from], indent) then BodyEnd(lines, from + 1, indent) else from
  }

  /** The spliced text ends in a blank line. */
  function WithBlankLine(replacement: string): (r: string)
    ensures EndsWith(r, "\n\n")
  {
    var ended := if EndsWith(replacement, "\n") then replacement else replacement + "\n";
    if EndsWith(ended, "\n\n") then ended else ended + "\n"
  }

  lemma EndsInBreaks(s: string)
    ensures EndsWith(s, "\n") <==> s != "" && s[|s| - 1] == '\n'
    ensures EndsWith(s, "\n\n") <==> |s| >= 2 && s[|s| - 1] == '\n' && s[|s| - 2] == '\n'
  {
    if s != "" {
      assert s[|s| - 1..] == [s[|s| - 1]];
    }
    if |s| >= 2 {
      assert s[|s| - 2..] == [s[|s| - 2], s[|s| - 1]];
    }
  }

  /** The replacement itself when it ends in a blank line, else with the line feeds that it lacks. */
  lemma BlankLineAdded(text: string)
    requires text != "" && text[|text| - 1] != '\n'
    ensures WithBlankLine(text) == WithBlankLine(text + "\n") == WithBlankLine(text + "\n\n") == text + "\n\n"
  {
    EndsInBreaks(text);
    EndsInBreaks(text + "\n");
    EndsInBreaks(text + "\n\n");
    assert (text + "\n") + "\n" == text + "\n\n";
  }

  datatype Refusal = MissingHeader | MissingImportBlock | UnknownLogin
  datatype Patch = Patched(text: string) | Refused(reason: Refusal)

  function DefBlockReplaced(text: string, prefix: string, replacement: string): Patch {
    var lines := SplitLines(text);
    var i := FirstHeader(lines, prefix);
    if i == |lines| then Refused(MissingHeader)
    else
      var end := BodyEnd(lines, i + 1, Indent(lines[i]));
      Patched(JoinLines(lines[..i]) + WithBlankLine(replacement) + JoinLines(lines[end..]))
  }

  /** `replace_def_block` */
  method ReplaceDefBlock(text: string, prefix: string, replacement: string) returns (r: Patch)
    ensures r == DefBlockReplaced(text, prefix, replacement)
  {
    var lines := SplitLines(text);
    var header := FirstHeader(lines, prefix);
    if header == |lines| {
      return Refused(MissingHeader);
    }
    var indent := Indent(lines[header]);
    var end := header + 1;
    while end < |lines|
      invariant header < end <= |lines|
      invariant BodyEnd(lines, header + 1, indent) == BodyEnd(lines, end, indent)
    {
      var raw := lines[end];
      if !Blank(raw) {
        if Indent(raw) <= indent {
          break;
        }
      }
      end := end + 1;
    }
    return Patched(JoinLines(lines[..header]) + WithBlankLine(replacement) + JoinLines(lines[end..]));
  }

  // ---------------------------------------------------------------- what is cut out

  /** The lines of a text around the first `def` block with this header: before, block, after. */
  ghost predicate IsCut(lines: seq<string>, prefix: string, before: seq<string>, block: seq<string>, after: seq<string>) {
    && lines == before + block + after
    && (forall k :: 0 <= k < |before| ==> !StartsWith(before[k], prefix))
    && block != [] && StartsWith(block[0], prefix)
    && (forall k :: 1 <= k < |block| ==> InBody(block[k], Indent(block[0])))
    && (after != [] ==> !InBody(after[0], Indent(block[0])))
  }

  ghost predicate HasCut(lines: seq<string>, prefix: string) {
    exists before, block, after :: IsCut(lines, prefix, before, block, after)
  }

  /** The replacement succeeds exactly when the text can be cut around a block with this header. */
  lemma SucceedsIffCut(text: string, prefix: string, replacement: string)
    ensures DefBlockReplaced(text, prefix, replacement).Patched? <==> HasCut(SplitLines(text), prefix)
    ensures !HasCut(SplitLines(text), prefix) ==> DefBlockReplaced(text, prefix, replacement) == Refused(MissingHeader)
  {
    hide SplitLines, JoinLines, Indent, BodyEnd;
    var lines := SplitLines(text);
    if FirstHeader(lines, prefix) < |lines| {
      CutAtHeader(lines, prefix);
    } else if HasCut(lines, prefix) {
      var before, block, after :| IsCut(lines, prefix, before, block, after);
      HeaderOfCut(lines, prefix, before, block, after);
    }
  }

  lemma CutAtHeader(lines: seq<string>, prefix: string)
    requires FirstHeader(lines, prefix) < |lines|
    ensures var i := FirstHeader(lines, prefix);
            var end := BodyEnd(lines, i + 1, Indent(lines[i]));
            IsCut(lines, prefix, lines[..i], lines[i..end], lines[end..])
  {
    hide SplitLines, Indent, InBody, FirstHeader, BodyEnd;
    var i := FirstHeader(lines, prefix);
    var end := BodyEnd(lines, i + 1, Indent(lines[i]));
    assert lines == lines[..i] + lines[i..end] + lines[end..];
  }

  /** A text has at most one cut for a header. */
  lemma CutIsUnique(lines: seq<string>, prefix: string,
                    before: seq<string>, block: seq<string>, after: seq<string>,
                    before': seq<string>, block': seq<string>, after': seq<string>)
    requires IsCut(lines, prefix, before, block, after) && IsCut(lines, prefix, before', block', after')
    ensures before == before' && block == block' && after == after'
  {
    hide Indent, InBody;
    HeaderOfCut(lines, prefix, before, block, after);
    HeaderOfCut(lines, prefix, before', block', after');
    BodyEndIs(lines, |before| + 1, Indent(block[0]), |before + block|);
    BodyEndIs(lines, |before| + 1, Indent(block[0]), |before' + block'|);
    assert before == lines[..|before|] == before';
    assert block == lines[|before|..|before + block|] == block';
    assert after == lines[|before + block|..] == after';
  }

  /** The result is prefix + replacement + suffix around exactly that cut. */
  lemma ReplacesTheCut(text: string, prefix: string, replacement: string,
                       before: seq<string>, block: seq<string>, after: seq<string>)
    requires IsCut(SplitLines(text), prefix, before, block, after)
    ensures JoinLines(before) + JoinLines(block) + JoinLines(after) == text
    ensures DefBlockReplaced(text, prefix, replacement)
         == Patched(JoinLines(before) + WithBlankLine(replacement) + JoinLines(after))
  {
    var lines := SplitLines(text);
    JoinSplit(text);
    JoinAppend(before + block, after);
    JoinAppend(before, block);
    HeaderOfCut(lines, prefix, before, block, after);
    var end := |before + block|;
    BodyEndIs(lines, |before| + 1, Indent(block[0]), end);
    assert lines[..|before|] == before && lines[end..] == after;
  }

  lemma HeaderOfCut(lines: seq<string>, prefix: string, before: seq<string>, block: seq<string>, after: seq<string>)
    requires IsCut(lines, prefix, before, block, after)
    ensures FirstHeader(lines, prefix) == |before| && lines[|before|] == block[0]
    ensures forall k :: |before| < k < |before + block| ==> InBody(lines[k], Indent(block[0]))
    ensures after != [] ==> !InBody(lines[|before + block|], Indent(block[0]))
  {
    assert lines[|before|] == block[0];
    forall k | 0 <= k < |before| ensures !StartsWith(lines[k], prefix) {
      assert lines[k] == before[k];
    }
    forall k | |before| < k < |before + block| ensures InBody(lines[k], Indent(block[0])) {
      assert lines[k] == block[k - |before|];
    }
    if after != [] {
      assert lines[|before + block|] == after[0];
    }
  }

  lemma {:induction false} BodyEndIs(lines: seq<string>, from: nat, indent: nat, end: nat)
    requires from <= end <= |lines|
    requires forall k :: from <= k < end ==> InBody(lines[k], indent)
    requires end < |lines| ==> !InBody(lines[end], indent)
    ensures BodyEnd(lines, from, indent) == end
    decreases end - from
  {
    if from < end {
      BodyEndIs(lines, from + 1, indent, end);
    }
  }

  // ---------------------------------------------------------------- replacing twice

  /** A header text that fixes the indentation of its line and cannot be swallowed by a line end. */
  predicate IsHeader(prefix: string) {
    Indent(prefix) < |prefix| && prefix[0] != '\n'
  }

  /** A replacement that is itself one whole block under this header. */
  ghost predicate IsWholeBlock(lines: seq<string>, prefix: string) {
    && lines != [] && StartsWith(lines[0], prefix)
    && forall k :: 1 <= k < |lines| ==> InBody(lines[k], Indent(prefix))
  }

  lemma IndentOfHeader(line: string, prefix: string)
    requires StartsWith(line, prefix) && IsHeader(prefix)
    ensures Indent(line) == Indent(prefix)
  {
    assert forall i :: 0 <= i < |prefix| ==> line[i] == line[..|prefix|][i];
    IndentIs(line, Indent(prefix));
  }

  lemma {:induction false} IndentIs(line: string, n: nat)
    requires n < |line| && line[n] != ' ' && forall i :: 0 <= i < n ==> line[i] == ' '
    ensures Indent(line) == n
  {
    if n > 0 {
      IndentIs(line[1..], n - 1);
    }
  }

  lemma {:induction false} LastLine(t: string)
    requires t != ""
    ensures var ls := SplitLines(t);
            ls != [] && ls[|ls| - 1] != "" && ls[|ls| - 1][|ls[|ls| - 1]| - 1] == t[|t| - 1]
    decreases |t|
  {
    var n := LineEnd(t);
    if n < |t| {
      LastLine(t[n..]);
      assert SplitLines(t)[1..] == SplitLines(t[n..]);
    } else {
      assert t[n..] == "" && SplitLines(t) == [t[..n]];
    }
  }

  lemma CutIsSplit(lines: seq<string>, before: seq<string>, block: seq<string>, after: seq<string>)
    requires IsSplit(lines) && lines == before + block + after
    ensures IsSplit(before) && IsSplit(after)
    ensures before != [] && block != [] ==> Terminated(before[|before| - 1])
  {
    assert forall i :: 0 <= i < |before| ==> lines[i] == before[i];
    assert forall i :: 0 <= i < |after| ==> lines[|before + block| + i] == after[i];
    forall i | 0 <= i < |after| - 1 ensures Terminated(after[i]) && NoJunction(after[i], after[i + 1]) {
      assert lines[|before + block| + i] == after[i] && lines[|before + block| + (i + 1)] == after[i + 1];
    }
    if before != [] && block != [] {
      assert Terminated(lines[|before| - 1]);
    }
  }

  /** After the replacement the text is cut at the same place, around the replacement. */
  lemma CutAfterReplacing(text: string, prefix: string, replacement: string,
                          before: seq<string>, block: seq<string>, after: seq<string>)
    requires IsCut(SplitLines(text), prefix, before, block, after)
    requires IsHeader(prefix) && IsWholeBlock(SplitLines(WithBlankLine(replacement)), prefix)
    ensures var inserted := SplitLines(WithBlankLine(replacement));
            var out := JoinLines(before) + WithBlankLine(replacement) + JoinLines(after);
            IsCut(SplitLines(out), prefix, before, inserted, after)
  {
    var spliced := WithBlankLine(replacement);
    var inserted := SplitLines(spliced);
    SplitIsSplit(text);
    CutIsSplit(SplitLines(text), before, block, after);
    SplitIsSplit(spliced);
    LastLine(spliced);
    assert spliced[|spliced| - 1] == spliced[|spliced| - 2..][1] == '\n';
    assert inserted[0][0] == inserted[0][..|prefix|][0];
    SplitAppend(before, inserted);
    assert (before + inserted)[|before + inserted| - 1] == inserted[|inserted| - 1];
    SplitAppend(before + inserted, after);
    JoinSplit(spliced);
    JoinAppend(before + inserted, after);
    JoinAppend(before, inserted);
    SplitJoin(before + inserted + after);
    IndentOfHeader(block[0], prefix);
    IndentOfHeader(inserted[0], prefix);
  }

  /** Replacing a block by a whole block again changes nothing, for every text with the header. */
  lemma ReplacingIsIdempotent(text: string, prefix: string, replacement: string)
    requires IsHeader(prefix) && IsWholeBlock(SplitLines(WithBlankLine(replacement)), prefix)
    requires DefBlockReplaced(text, prefix, replacement).Patched?
    ensures var once := DefBlockReplaced(text, prefix, replacement);
            DefBlockReplaced(once.text, prefix, replacement) == once
  {
    hide SplitLines, JoinLines, Indent, BodyEnd, FirstHeader, DefBlockReplaced;
    var lines := SplitLines(text);
    SucceedsIffCut(text, prefix, replacement);
    var before, block, after :| IsCut(lines, prefix, before, block, after);
    ReplacesTheCut(text, prefix, replacement, before, block, after);
    CutAfterReplacing(text, prefix, replacement, before, block, after);
    var once := DefBlockReplaced(text, prefix, replacement).text;
    ReplacesTheCut(once, prefix, replacement, before, SplitLines(WithBlankLine(replacement)), after);
  }

  // ---------------------------------------------------------------- the import

  const WORD := "login_official_srm"
  const IMPORT_HEAD := "from nodeskclaw_rpa_engine.runtime import (\n"
  const IMPORT_LINE := "    " + WORD + ",\n"

  /** The characters above ASCII that `\w` matches; the results hold for any such set. */
  type WideChar = c: char | '\U{0080}' <= c witness '\U{00E9}'

  predicate IsWordChar(c: char, wide: set<WideChar>) {
    'A' <= c <= 'Z' || 'a' <= c <= 'z' || '0' <= c <= '9' || c == '_' || c in wide
  }

  predicate IsWordAt(text: string, i: int, wide: set<WideChar>) {
    && At(text, i, WORD)
    && (i > 0 ==> !IsWordChar(text[i - 1], wide))
    && (i + |WORD| < |text| ==> !IsWordChar(text[i + |WORD|], wide))
  }

  /** `re.search(r"\blogin_official_srm\b", text)` */
  predicate MentionsLogin(text: string, wide: set<WideChar>) {
    exists i :: 0 <= i <= |text| && IsWordAt(text, i, wide)
  }

  /** The text is the name between two parts, the first not ending and the second not beginning with a word character. */
  ghost predicate IsMention(text: string, a: string, b: string, wide: set<WideChar>) {
    && text == a + WORD + b
    && (a == "" || !IsWordChar(a[|a| - 1], wide)) && (b == "" || !IsWordChar(b[0], wide))
  }

  /** A mention is an occurrence with no word character right before or right after it. */
  lemma MentionIff(text: string, wide: set<WideChar>)
    ensures MentionsLogin(text, wide) <==> exists a, b :: IsMention(text, a, b, wide)
  {
    hide IsWordChar, WORD;
    if i :| 0 <= i <= |text| && IsWordAt(text, i, wide) {
      assert text == text[..i] + WORD + text[i + |WORD|..];
      assert IsMention(text, text[..i], text[i + |WORD|..], wide);
    }
    if a, b :| IsMention(text, a, b, wide) {
      MentionAt(text, a, b, wide);
    }
  }

  lemma MentionAt(text: string, a: string, b: string, wide: set<WideChar>)
    requires IsMention(text, a, b, wide)
    ensures IsWordAt(text, |a|, wide)
  {
    hide IsWordChar, WORD;
    assert text[|a|..|a| + |WORD|] == WORD;
    assert a != "" ==> text[|a| - 1] == a[|a| - 1];
    assert b != "" ==> text[|a| + |WORD|] == b[0];
  }

  /** `ensure_import` */
  function EnsureImport(text: string, wide: set<WideChar>): Patch {
    if MentionsLogin(text, wide) then Patched(text)
    else
      var i := Find(text, IMPORT_HEAD);
      if i < 0 then Refused(MissingImportBlock)
      else Patched(text[..i + |IMPORT_HEAD|] + IMPORT_LINE + text[i + |IMPORT_HEAD|..])
  }

  /** `ensure_import` succeeds exactly when the name is mentioned or an import head is there to follow. */
  lemma ImportSucceedsIff(text: string, wide: set<WideChar>)
    ensures EnsureImport(text, wide).Patched? <==> MentionsLogin(text, wide) || Contains(text, IMPORT_HEAD)
    ensures EnsureImport(text, wide).Refused? ==> EnsureImport(text, wide) == Refused(MissingImportBlock)
  {
    hide MentionsLogin, Contains;
    ContainsIffFound(text, IMPORT_HEAD);
  }

  lemma MentionedBetween(a: string, b: string, wide: set<WideChar>)
    requires a != "" && !IsWordChar(a[|a| - 1], wide)
    requires b != "" && !IsWordChar(b[0], wide)
    ensures MentionsLogin(a + WORD + b, wide)
  {
    var t := a + WORD + b;
    AtInMiddle(a, WORD, b, 0, WORD);
    assert t[|a| - 1] == a[|a| - 1] && t[|a| + |WORD|] == b[0];
    assert IsWordAt(t, |a|, wide);
  }

  /** After `ensure_import` the name is mentioned. */
  lemma ImportEnsured(text: string, wide: set<WideChar>)
    requires EnsureImport(text, wide).Patched?
    ensures MentionsLogin(EnsureImport(text, wide).text, wide)
  {
    if !MentionsLogin(text, wide) {
      var a, b := ImportInserted(text, wide);
      var l, r := a + IMPORT_HEAD + "    ", ",\n" + b;
      assert a + IMPORT_HEAD + IMPORT_LINE + b == l + WORD + r;
      MentionedBetween(l, r, wide);
    }
  }

  /** Any mention, an import or not, keeps the text as it is; otherwise one line enters after the import head. */
  lemma ImportInserted(text: string, wide: set<WideChar>) returns (a: string, b: string)
    requires EnsureImport(text, wide).Patched?
    ensures var out := EnsureImport(text, wide).text;
      && (out == text <==> MentionsLogin(text, wide))
      && (out != text ==> text == a + IMPORT_HEAD + b && out == a + IMPORT_HEAD + IMPORT_LINE + b)
      && (out != text ==> !Contains(a + IMPORT_HEAD[..|IMPORT_HEAD| - 1], IMPORT_HEAD))
  {
    a, b := "", "";
    if !MentionsLogin(text, wide) {
      var i := Find(text, IMPORT_HEAD);
      a, b := text[..i], text[i + |IMPORT_HEAD|..];
      assert text[i..i + |IMPORT_HEAD|] == IMPORT_HEAD;
      assert text[..i + |IMPORT_HEAD|] == a + IMPORT_HEAD;
      assert text == a + IMPORT_HEAD + b;
      FirstImportHead(text, i);
    }
  }

  lemma FirstImportHead(text: string, i: nat)
    requires Find(text, IMPORT_HEAD) == i
    ensures !Contains(text[..i] + IMPORT_HEAD[..|IMPORT_HEAD| - 1], IMPORT_HEAD)
  {
    var n := |IMPORT_HEAD| - 1;
    var front := text[..i] + IMPORT_HEAD[..n];
    assert text[i..i + |IMPORT_HEAD|] == IMPORT_HEAD;
    assert text[i..i + n] == IMPORT_HEAD[..n];
    assert front == text[0..i + n];
    forall j | 0 <= j <= |front| ensures !At(front, j, IMPORT_HEAD) {
      if At(front, j, IMPORT_HEAD) {
        AtInSlice(text, 0, i + n, j, IMPORT_HEAD);
      }
    }
  }

  // ---------------------------------------------------------------- where the import line stands

  /** Splitting a text after a line feed. */
  lemma SplitConcat(x: string, y: string)
    requires x != "" && x[|x| - 1] == '\n'
    ensures SplitLines(x + y) == SplitLines(x) + SplitLines(y)
  {
    var a, b := SplitLines(x), SplitLines(y);
    SplitIsSplit(x);
    SplitIsSplit(y);
    LastLine(x);
    SplitAppend(a, b);
    JoinSplit(x);
    JoinSplit(y);
    JoinAppend(a, b);
    SplitJoin(a + b);
  }

  /** The lines of a text with line `l` put in before line `n`. */
  function Inserted(lines: seq<string>, n: nat, l: string): seq<string>
    requires n <= |lines|
  {
    lines[..n] + [l] + lines[n..]
  }

  /** A line put in outside the block leaves the block as it is. */
  lemma CutWithLineOutside(lines: seq<string>, prefix: string, before: seq<string>, block: seq<string>, after: seq<string>,
                           n: nat, l: string)
    requires IsCut(lines, prefix, before, block, after) && n <= |lines| && !StartsWith(l, prefix)
    ensures n <= |before| ==> IsCut(Inserted(lines, n, l), prefix, Inserted(before, n, l), block, after)
    ensures |before + block| < n ==>
      IsCut(Inserted(lines, n, l), prefix, before, block, Inserted(after, n - |before + block|, l))
  {
    hide Indent, InBody;
    if n <= |before| {
      assert lines[..n] == before[..n] && lines[n..] == before[n..] + block + after;
      assert Inserted(lines, n, l) == Inserted(before, n, l) + block + after;
    }
    if |before + block| < n {
      var d := n - |before + block|;
      assert lines[..n] == before + block + after[..d] && lines[n..] == after[d..];
      assert Inserted(lines, n, l) == before + block + Inserted(after, d, l);
    }
  }

  /** A line put in inside the block joins it when deep enough, and else ends it. */
  lemma CutWithLineInside(lines: seq<string>, prefix: string, before: seq<string>, block: seq<string>, after: seq<string>,
                          n: nat, l: string)
    requires IsCut(lines, prefix, before, block, after) && |before| < n <= |before + block|
    ensures var m := n - |before|;
      if InBody(l, Indent(block[0]))
      then IsCut(Inserted(lines, n, l), prefix, before, Inserted(block, m, l), after)
      else IsCut(Inserted(lines, n, l), prefix, before, block[..m], [l] + block[m..] + after)
  {
    hide Indent, InBody;
    var m := n - |before|;
    assert lines[..n] == before + block[..m] && lines[n..] == block[m..] + after;
    assert Inserted(lines, n, l) == before + Inserted(block, m, l) + after;
    assert Inserted(lines, n, l) == before + block[..m] + ([l] + block[m..] + after);
    assert forall k :: m < k < |Inserted(block, m, l)| ==> Inserted(block, m, l)[k] == block[k - 1];
  }

  /** A line put in takes no block away. */
  lemma CutStays(lines: seq<string>, n: nat, l: string, prefix: string)
    requires n <= |lines| && !StartsWith(l, prefix) && HasCut(lines, prefix)
    ensures HasCut(Inserted(lines, n, l), prefix)
  {
    hide StartsWith, InBody, Indent, IsCut;
    var before, block, after :| IsCut(lines, prefix, before, block, after);
    if |before| < n <= |before + block| {
      CutWithLineInside(lines, prefix, before, block, after, n, l);
    } else {
      CutLength(lines, prefix, before, block, after);
      CutWithLineOutside(lines, prefix, before, block, after, n, l);
    }
  }

  lemma HeaderNotInserted(lines: seq<string>, n: nat, l: string, prefix: string)
    requires n <= |lines| && !StartsWith(l, prefix) && HasCut(Inserted(lines, n, l), prefix)
    ensures HasCut(lines, prefix)
  {
    hide StartsWith, InBody, Indent, BodyEnd, FirstHeader;
    var before, block, after :| IsCut(Inserted(lines, n, l), prefix, before, block, after);
    var k := |before|;
    assert Inserted(lines, n, l)[k] == block[0];
    assert StartsWith(lines[if k < n then k else k - 1], prefix);
    CutAtHeader(lines, prefix);
  }

  /** What `replace_def_block` writes around its replacement. */
  function Around(before: seq<string>, replacement: string, after: seq<string>): string {
    JoinLines(before) + WithBlankLine(replacement) + JoinLines(after)
  }

  /** Replacing the block after a line was put in before line `n`; `joins` says that the line is deep enough for the block. */
  lemma ReplacedWithLine(text: string, longer: string, prefix: string, replacement: string,
                         before: seq<string>, block: seq<string>, after: seq<string>, n: nat, l: string, joins: bool)
    requires IsCut(SplitLines(text), prefix, before, block, after) && n <= |SplitLines(text)|
    requires SplitLines(longer) == Inserted(SplitLines(text), n, l)
    requires !StartsWith(l, prefix) && joins == InBody(l, Indent(block[0]))
    ensures var r := DefBlockReplaced(longer, prefix, replacement);
      && (n <= |before| ==> r == Patched(Around(Inserted(before, n, l), replacement, after)))
      && (|before| < n <= |before + block| ==>
            r == Patched(Around(before, replacement, if joins then after else [l] + block[n - |before|..] + after)))
      && (|before + block| < n ==> r == Patched(Around(before, replacement, Inserted(after, n - |before + block|, l))))
  {
    hide SplitLines, JoinLines, InBody, Indent, WithBlankLine, DefBlockReplaced, StartsWith, IsCut, Inserted;
    var lines := SplitLines(text);
    if n <= |before| {
      CutWithLineOutside(lines, prefix, before, block, after, n, l);
      ReplacesTheCut(longer, prefix, replacement, Inserted(before, n, l), block, after);
    } else if n <= |before + block| {
      CutWithLineInside(lines, prefix, before, block, after, n, l);
      if joins {
        ReplacesTheCut(longer, prefix, replacement, before, Inserted(block, n - |before|, l), after);
      } else {
        ReplacesTheCut(longer, prefix, replacement, before, block[..n - |before|], [l] + block[n - |before|..] + after);
      }
    } else {
      CutLength(lines, prefix, before, block, after);
      CutWithLineOutside(lines, prefix, before, block, after, n, l);
      ReplacesTheCut(longer, prefix, replacement, before, block, Inserted(after, n - |before + block|, l));
    }
  }

  lemma CutLength(lines: seq<string>, prefix: string, before: seq<string>, block: seq<string>, after: seq<string>)
    requires IsCut(lines, prefix, before, block, after)
    ensures |lines| == |before + block| + |after|
  {
  }

  /** The line that `ensure_import` adds comes right after the line that ends the first import head. */
  lemma ImportedLines(text: string, wide: set<WideChar>) returns (n: nat)
    requires EnsureImport(text, wide).Patched? && !MentionsLogin(text, wide)
    requires SplitLines(IMPORT_LINE) == [IMPORT_LINE]
    ensures var lines, i := SplitLines(text), Find(text, IMPORT_HEAD);
      && 0 <= i && n <= |lines| && JoinLines(lines[..n]) == text[..i + |IMPORT_HEAD|]
      && SplitLines(EnsureImport(text, wide).text) == Inserted(lines, n, IMPORT_LINE)
  {
    hide SplitLines, MentionsLogin, JoinLines;
    var e := Find(text, IMPORT_HEAD) + |IMPORT_HEAD|;
    var x, y := text[..e], text[e..];
    n := |SplitLines(x)|;
    assert x[|x| - 1] == text[e - |IMPORT_HEAD|..e][|IMPORT_HEAD| - 1];
    assert x + y == text;
    SplitConcat(x, y);
    JoinSplit(x);
    assert SplitLines(text)[..n] == SplitLines(x) && SplitLines(text)[n..] == SplitLines(y);
    SplitConcat(IMPORT_LINE, y);
    SplitConcat(x, IMPORT_LINE + y);
    assert x + (IMPORT_LINE + y) == x + IMPORT_LINE + y;
    assert SplitLines(x) + ([IMPORT_LINE] + SplitLines(y)) == SplitLines(x) + [IMPORT_LINE] + SplitLines(y);
  }
}
