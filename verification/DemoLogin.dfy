/** `patch_flow`: the two concrete login replacements, and the whole flow.py patch. */
module DemoLogin {
  import opened Text
  import opened Lines
  import opened FlowPatch

  function Spaces(n: nat): (s: string)
    ensures |s| == n && forall i :: 0 <= i < n ==> s[i] == ' '
  {
    if n == 0 then "" else " " + Spaces(n - 1)
  }

  function CodeHead(indent: nat, code: string): string {
    Spaces(indent) + code
  }

  function CodeLine(indent: nat, code: string): string {
    CodeHead(indent, code) + "\n"
  }

  const METHOD_HEADER := CodeHead(4, METHOD_DEF)
  const FUNC_HEADER := CodeHead(0, FUNC_DEF)

  // A long line is the sum of two literals: that it is code is proved part by part (see CodeAndMore).
  const METHOD_DEF := "async def login(self):"
  const METHOD_CALL := AWAIT + WORD + "(self.ctx, selector=self.selector)"
  const FUNC_DEF := "async def _login(ctx):"
  const AWAIT := "await "
  const SELECTORS := "selectors = ctx.selectors if isinstance" + "(ctx.selectors, Mapping) else {}"
  const SELECTOR_DEF := "def selector(name, **values):"
  const GET_VALUE := "value = selectors.get(name)"
  const CHECK_VALUE := "if not isinstance(value, str) or not value:"
  const RAISE := "raise RpaFatalError(\"FLOW_SELECTOR_MISSING\"," + " f\"missing selector: {name}\")"
  const FOR_VALUES := "for key, replacement in values.items():"
  const SUBSTITUTE := "value = value.replace(f\"{{{key}}}\"," + " str(replacement))"
  const RETURN_VALUE := "return value"
  const FUNC_CALL := AWAIT + WORD + "(ctx, selector=selector)"

  const METHOD_LINES := [CodeLine(4, METHOD_DEF), CodeLine(8, METHOD_CALL)]

  const FUNC_LINES := [
    CodeLine(0, FUNC_DEF),
    CodeLine(4, SELECTORS),
    "\n",
    CodeLine(4, SELECTOR_DEF),
    CodeLine(8, GET_VALUE),
    CodeLine(8, CHECK_VALUE),
    CodeLine(12, RAISE),
    CodeLine(8, FOR_VALUES),
    CodeLine(12, SUBSTITUTE),
    CodeLine(8, RETURN_VALUE),
    "\n",
    CodeLine(4, FUNC_CALL)
  ]

  const LOGIN_METHOD := JoinLines(METHOD_LINES)
  const LOGIN_FUNC := JoinLines(FUNC_LINES)

  datatype LoginKind = Method | Func | Other(kind: string)

  function HeaderOf(kind: LoginKind): string
    requires !kind.Other?
  {
    if kind.Method? then METHOD_HEADER else FUNC_HEADER
  }

  function LoginOf(kind: LoginKind): string
    requires !kind.Other?
  {
    if kind.Method? then LOGIN_METHOD else LOGIN_FUNC
  }

  /** The text that `patch_flow` writes back to flow.py. */
  function FlowPatched(text: string, kind: LoginKind, wide: set<WideChar>): Patch {
    match EnsureImport(text, wide)
    case Refused(reason) => Refused(reason)
    case Patched(imported) =>
      if kind.Other? then Refused(UnknownLogin)
      else DefBlockReplaced(imported, HeaderOf(kind), LoginOf(kind))
  }

  /** The flow.py part of `patch_flow`; `file` is the text of the file before and after. */
  method PatchFlow(text: string, kind: LoginKind, wide: set<WideChar>) returns (file: string, error: Option<Refusal>)
    ensures match FlowPatched(text, kind, wide)
            case Patched(out) => file == out && error == None
            case Refused(reason) => file == text && error == Some(reason)
  {
    file := text;
    var imported := EnsureImport(text, wide);
    if imported.Refused? {
      return file, Some(imported.reason);
    }
    var patched;
    if kind.Method? {
      patched := ReplaceDefBlock(imported.text, METHOD_HEADER, LOGIN_METHOD);
    } else if kind.Func? {
      patched := ReplaceDefBlock(imported.text, FUNC_HEADER, LOGIN_FUNC);
    } else {
      return file, Some(UnknownLogin);
    }
    if patched.Refused? {
      return file, Some(patched.reason);
    }
    file := patched.text;
    error := None;
  }

  // ---------------------------------------------------------------- facts about the constants

  /** Printable ASCII only, so free of line breaks. */
  predicate Printable(s: string) {
    forall c :: c in s ==> ' ' <= c <= '~'
  }

  lemma {:induction false} LineWithoutBreaks(body: string)
    requires Printable(body)
    ensures IsLine(body + "\n") && Terminated(body + "\n")
    decreases |body|
  {
    if body != "" {
      assert body[0] in body && !IsBreak(body[0]);
      assert forall c :: c in body[1..] ==> c in body;
      assert (body + "\n")[1..] == body[1..] + "\n";
      LineWithoutBreaks(body[1..]);
    }
  }

  /** Code that can follow an indentation: no line break, and no white space first. */
  predicate IsCode(code: string) {
    code != "" && Printable(code) && !IsSpace(code[0])
  }

  lemma CodeAndMore(code: string, more: string)
    requires IsCode(code) && Printable(more)
    ensures IsCode(code + more)
  {
  }

  predicate GoodLine(l: string, indent: nat) {
    && IsLine(l) && l[|l| - 1] == '\n' && l[0] != '\n'
    && Indent(l) == indent
  }

  lemma CodeLineIsGood(indent: nat, code: string)
    requires IsCode(code)
    ensures GoodLine(CodeLine(indent, code), indent)
  {
    var l := CodeLine(indent, code);
    LineWithoutBreaks(CodeHead(indent, code));
    assert l[indent] == code[0];
    IndentIs(l, indent);
  }

  lemma HeaderIsGood(indent: nat, code: string)
    requires IsCode(code)
    ensures IsHeader(CodeHead(indent, code)) && Indent(CodeHead(indent, code)) == indent
    ensures StartsWith(CodeLine(indent, code), CodeHead(indent, code))
  {
    var h := CodeHead(indent, code);
    assert h[indent] == code[0] && h[0] != '\n';
    IndentIs(h, indent);
  }

  lemma ShortCodes()
    ensures IsCode(METHOD_DEF) && IsCode(FUNC_DEF) && IsCode(SELECTOR_DEF)
  {
  }

  lemma MoreCodes()
    ensures IsCode(GET_VALUE) && IsCode(FOR_VALUES) && IsCode(RETURN_VALUE)
  {
  }

  lemma SelectorsIsCode()
    ensures IsCode(SELECTORS)
  {
    CodeAndMore("selectors = ctx.selectors if isinstance", "(ctx.selectors, Mapping) else {}");
  }

  lemma CheckValueIsCode()
    ensures IsCode(CHECK_VALUE)
  {
  }

  lemma RaiseIsCode()
    ensures IsCode(RAISE)
  {
    CodeAndMore("raise RpaFatalError(\"FLOW_SELECTOR_MISSING\",", " f\"missing selector: {name}\")");
  }

  lemma SubstituteIsCode()
    ensures IsCode(SUBSTITUTE)
  {
    CodeAndMore("value = value.replace(f\"{{{key}}}\",", " str(replacement))");
  }

  lemma CallsAreCode()
    ensures IsCode(METHOD_CALL) && IsCode(FUNC_CALL)
  {
    CodeAndMore(AWAIT, WORD);
    CodeAndMore(AWAIT + WORD, "(self.ctx, selector=self.selector)");
    CodeAndMore(AWAIT + WORD, "(ctx, selector=selector)");
  }

  /** A replacement whose lines are its header line, then blank or deeper lines. */
  ghost predicate IsLoginBlock(lines: seq<string>, header: string, indent: nat) {
    && IsHeader(header) && Indent(header) == indent
    && |lines| > 1 && GoodLine(lines[0], indent) && StartsWith(lines[0], header)
    && forall k :: 1 <= k < |lines| ==> lines[k] == "\n" || exists d: nat :: d > indent && GoodLine(lines[k], d)
  }

  lemma MethodIsLoginBlock()
    ensures IsLoginBlock(METHOD_LINES, METHOD_HEADER, 4)
  {
    ShortCodes();
    CallsAreCode();
    HeaderIsGood(4, METHOD_DEF);
    CodeLineIsGood(4, METHOD_DEF);
    CodeLineIsGood(8, METHOD_CALL);
  }

  lemma FuncIsLoginBlock()
    ensures IsLoginBlock(FUNC_LINES, FUNC_HEADER, 0)
  {
    ShortCodes();
    MoreCodes();
    SelectorsIsCode();
    CheckValueIsCode();
    RaiseIsCode();
    SubstituteIsCode();
    CallsAreCode();
    HeaderIsGood(0, FUNC_DEF);
    CodeLineIsGood(0, FUNC_DEF);
    CodeLineIsGood(4, SELECTORS);
    CodeLineIsGood(4, SELECTOR_DEF);
    CodeLineIsGood(8, GET_VALUE);
    CodeLineIsGood(8, CHECK_VALUE);
    CodeLineIsGood(12, RAISE);
    CodeLineIsGood(8, FOR_VALUES);
    CodeLineIsGood(12, SUBSTITUTE);
    CodeLineIsGood(8, RETURN_VALUE);
    CodeLineIsGood(4, FUNC_CALL);
  }

  // ---------------------------------------------------------------- patching twice

  lemma BlockLinesAreSplit(lines: seq<string>, header: string, indent: nat)
    requires IsLoginBlock(lines, header, indent)
    ensures IsSplit(lines) && IsSplit(lines + ["\n"])
    ensures IsWholeBlock(lines, header) && IsWholeBlock(lines + ["\n"], header)
  {
    forall k | 0 <= k < |lines|
      ensures IsLine(lines[k]) && lines[k][|lines[k]| - 1] == '\n'
      ensures k >= 1 ==> InBody(lines[k], indent)
    {
      if k >= 1 && lines[k] != "\n" {
        var d: nat :| d > indent && GoodLine(lines[k], d);
      }
    }
    assert lines[0][..|header|][0] == header[0];
    assert InBody("\n", indent);
  }

  lemma EndedLogin(lines: seq<string>, header: string, indent: nat)
    requires IsLoginBlock(lines, header, indent)
    ensures EndsWith(JoinLines(lines), "\n")
  {
    BlockLinesAreSplit(lines, header, indent);
    SplitJoin(lines);
    var t := JoinLines(lines);
    LastLine(t);
    var last := lines[|lines| - 1];
    assert last == "\n" || exists d: nat :: d > indent && GoodLine(last, d);
    assert t[|t| - 1..] == [t[|t| - 1]];
  }

  lemma BlankLineOfEnded(t: string)
    requires EndsWith(t, "\n")
    ensures WithBlankLine(t) == t || WithBlankLine(t) == t + "\n"
  {
  }

  /** Spliced in with its closing blank line, a login block is one whole block. */
  lemma SplicedLoginIsWhole(lines: seq<string>, header: string, indent: nat)
    requires IsLoginBlock(lines, header, indent)
    ensures IsWholeBlock(SplitLines(WithBlankLine(JoinLines(lines))), header)
  {
    EndedLogin(lines, header, indent);
    BlankLineOfEnded(JoinLines(lines));
    BlockLinesAreSplit(lines, header, indent);
    SplitJoin(lines);
    SplitJoin(lines + ["\n"]);
    JoinAppend(lines, ["\n"]);
    assert JoinLines(["\n"]) == "\n";
  }

  lemma LoginIsBlock(kind: LoginKind)
    requires !kind.Other?
    ensures IsHeader(HeaderOf(kind))
    ensures IsWholeBlock(SplitLines(WithBlankLine(LoginOf(kind))), HeaderOf(kind))
  {
    if kind.Method? {
      MethodIsLoginBlock();
      SplicedLoginIsWhole(METHOD_LINES, METHOD_HEADER, 4);
    } else {
      FuncIsLoginBlock();
      SplicedLoginIsWhole(FUNC_LINES, FUNC_HEADER, 0);
    }
  }

  /** The last line of either replacement calls the imported helper. */
  lemma CallMentions(front: seq<string>, indent: nat, args: string)
    requires args != ""
    ensures var call := CodeLine(indent, AWAIT + WORD + args);
            JoinLines(front + [call]) == (JoinLines(front) + Spaces(indent) + AWAIT) + WORD + (args + "\n")
  {
    var call := CodeLine(indent, AWAIT + WORD + args);
    JoinAppend(front, [call]);
    assert JoinLines([call]) == call;
  }

  lemma LoginMentions(kind: LoginKind) returns (a: string, b: string)
    requires !kind.Other?
    ensures LoginOf(kind) == a + WORD + b
    ensures a != "" && a[|a| - 1] == ' ' && b != "" && b[0] == '('
  {
    if kind.Method? {
      var front := METHOD_LINES[..1];
      assert METHOD_LINES == front + [CodeLine(8, METHOD_CALL)];
      CallMentions(front, 8, "(self.ctx, selector=self.selector)");
      a, b := JoinLines(front) + Spaces(8) + AWAIT, "(self.ctx, selector=self.selector)" + "\n";
    } else {
      var front := FUNC_LINES[..11];
      assert FUNC_LINES == front + [CodeLine(4, FUNC_CALL)];
      CallMentions(front, 4, "(ctx, selector=selector)");
      a, b := JoinLines(front) + Spaces(4) + AWAIT, "(ctx, selector=selector)" + "\n";
    }
  }

  lemma MentionedInside(before: string, login: string, after: string, a: string, b: string, wide: set<WideChar>)
    requires login == a + WORD + b
    requires a != "" && a[|a| - 1] == ' ' && b != "" && b[0] == '('
    ensures MentionsLogin(before + login + after, wide)
  {
    assert before + login + after == (before + a) + WORD + (b + after);
    MentionedBetween(before + a, b + after, wide);
  }

  lemma BlankLineExtends(login: string) returns (more: string)
    ensures WithBlankLine(login) == login + more
  {
    more := if EndsWith(login, "\n") then (if EndsWith(login, "\n\n") then "" else "\n")
            else if EndsWith(login + "\n", "\n\n") then "\n" else "\n" + "\n";
  }

  lemma Regroup(a: string, b: string, c: string, d: string)
    ensures a + (b + c) + d == a + b + (c + d)
  {
  }

  lemma ReplacedAround(text: string, header: string, login: string) returns (before: string, after: string)
    requires DefBlockReplaced(text, header, login).Patched?
    ensures DefBlockReplaced(text, header, login).text == before + login + after
  {
    SucceedsIffCut(text, header, login);
    var cut, block, rest :| IsCut(SplitLines(text), header, cut, block, rest);
    ReplacesTheCut(text, header, login, cut, block, rest);
    var more := BlankLineExtends(login);
    before, after := JoinLines(cut), more + JoinLines(rest);
    Regroup(before, login, more, JoinLines(rest));
  }

  /** Whatever the text, the name of the OCR login is mentioned after the patch. */
  lemma PatchedMentionsLogin(text: string, kind: LoginKind, wide: set<WideChar>)
    requires FlowPatched(text, kind, wide).Patched?
    ensures MentionsLogin(FlowPatched(text, kind, wide).text, wide)
  {
    var imported := EnsureImport(text, wide).text;
    var before, after := ReplacedAround(imported, HeaderOf(kind), LoginOf(kind));
    var a, b := LoginMentions(kind);
    MentionedInside(before, LoginOf(kind), after, a, b, wide);
  }

  /** The whole flow.py patch is idempotent on every text on which it succeeds. */
  lemma PatchIsIdempotent(text: string, kind: LoginKind, wide: set<WideChar>)
    requires FlowPatched(text, kind, wide).Patched?
    ensures FlowPatched(FlowPatched(text, kind, wide).text, kind, wide) == FlowPatched(text, kind, wide)
  {
    PatchedMentionsLogin(text, kind, wide);
    LoginIsBlock(kind);
    ReplacingIsIdempotent(EnsureImport(text, wide).text, HeaderOf(kind), LoginOf(kind));
  }

  // ---------------------------------------------------------------- the import line in the patched text

  lemma ImportLineFacts(kind: LoginKind)
    requires !kind.Other?
    ensures SplitLines(IMPORT_LINE) == [IMPORT_LINE] && !StartsWith(IMPORT_LINE, HeaderOf(kind))
    ensures InBody(IMPORT_LINE, Indent(HeaderOf(kind))) <==> kind.Func?
  {
    assert IMPORT_LINE == CodeLine(4, WORD + ",");
    CodeLineIsGood(4, WORD + ",");
    SplitJoin([IMPORT_LINE]);
    assert JoinLines([IMPORT_LINE]) == IMPORT_LINE;
    assert IMPORT_LINE[4] == 'l';
    HeaderFacts(kind);
    StartsWithAt(IMPORT_LINE, HeaderOf(kind), 4);
  }

  lemma HeaderFacts(kind: LoginKind)
    requires !kind.Other?
    ensures IsHeader(HeaderOf(kind)) && Indent(HeaderOf(kind)) == if kind.Method? then 4 else 0
    ensures |HeaderOf(kind)| > 4 && HeaderOf(kind)[4] != 'l'
  {
    ShortCodes();
    HeaderIsGood(4, METHOD_DEF);
    HeaderIsGood(0, FUNC_DEF);
    assert METHOD_HEADER[4] == METHOD_DEF[0] && FUNC_HEADER[4] == FUNC_DEF[4];
  }

  predicate CanImport(text: string, wide: set<WideChar>) {
    MentionsLogin(text, wide) || Contains(text, IMPORT_HEAD)
  }

  /**
   * When the patch succeeds, and what it refuses otherwise: first a text without the name or an import head,
   * then an unknown kind of login, then a text without a block under the header.
   */
  lemma PatchSucceedsIff(text: string, kind: LoginKind, wide: set<WideChar>)
    ensures FlowPatched(text, kind, wide).Patched?
      <==> CanImport(text, wide) && !kind.Other? && HasCut(SplitLines(text), HeaderOf(kind))
    ensures FlowPatched(text, kind, wide) == Refused(MissingImportBlock) <==> !CanImport(text, wide)
    ensures FlowPatched(text, kind, wide) == Refused(UnknownLogin) <==> CanImport(text, wide) && kind.Other?
    ensures FlowPatched(text, kind, wide) == Refused(MissingHeader)
      <==> CanImport(text, wide) && !kind.Other? && !HasCut(SplitLines(text), HeaderOf(kind))
  {
    hide SplitLines, MentionsLogin, JoinLines, InBody, HeaderOf, LoginOf, HasCut, DefBlockReplaced, Inserted, Contains, EnsureImport;
    ImportSucceedsIff(text, wide);
    if EnsureImport(text, wide).Patched? && !kind.Other? {
      SucceedsIffCut(EnsureImport(text, wide).text, HeaderOf(kind), LoginOf(kind));
      ImportKeepsCut(text, kind, wide);
    }
  }

  /** The import step neither adds nor removes a block. */
  lemma ImportKeepsCut(text: string, kind: LoginKind, wide: set<WideChar>)
    requires EnsureImport(text, wide).Patched? && !kind.Other?
    ensures HasCut(SplitLines(EnsureImport(text, wide).text), HeaderOf(kind)) <==> HasCut(SplitLines(text), HeaderOf(kind))
  {
    hide SplitLines, MentionsLogin, JoinLines, InBody, HeaderOf, HasCut, Inserted, Find;
    if !MentionsLogin(text, wide) {
      ImportLineFacts(kind);
      var n := ImportedLines(text, wide);
      if HasCut(SplitLines(text), HeaderOf(kind)) {
        CutStays(SplitLines(text), n, IMPORT_LINE, HeaderOf(kind));
      } else if HasCut(SplitLines(EnsureImport(text, wide).text), HeaderOf(kind)) {
        HeaderNotInserted(SplitLines(text), n, IMPORT_LINE, HeaderOf(kind));
      }
    }
  }

  /**
   * When the patch inserts the import line, and where that line stands in the patched text. Any mention of the
   * name keeps it out. Otherwise it follows the first import head, in the text before the replaced block or in
   * the text after it. An import head inside the block goes with the block: from the module-level function the
   * import line goes too, and in the method it ends the block, so that the lines after it stay behind.
   */
  lemma ImportInPatched(text: string, kind: LoginKind, wide: set<WideChar>)
      returns (before: seq<string>, block: seq<string>, after: seq<string>, n: nat)
    requires FlowPatched(text, kind, wide).Patched?
    ensures IsCut(SplitLines(text), HeaderOf(kind), before, block, after)
    ensures MentionsLogin(text, wide) ==> FlowPatched(text, kind, wide).text == Around(before, LoginOf(kind), after)
    ensures !MentionsLogin(text, wide) ==>
      var lines, i, out := SplitLines(text), Find(text, IMPORT_HEAD), FlowPatched(text, kind, wide).text;
      && 0 <= i && n <= |lines| && JoinLines(lines[..n]) == text[..i + |IMPORT_HEAD|]
      && (n <= |before| ==> out == Around(Inserted(before, n, IMPORT_LINE), LoginOf(kind), after))
      && (|before| < n <= |before + block| ==>
            out == Around(before, LoginOf(kind), if kind.Func? then after else [IMPORT_LINE] + block[n - |before|..] + after))
      && (|before + block| < n ==> out == Around(before, LoginOf(kind), Inserted(after, n - |before + block|, IMPORT_LINE)))
  {
    hide SplitLines, MentionsLogin, JoinLines, InBody, Indent, StartsWith, HeaderOf, LoginOf, DefBlockReplaced, Find, Inserted;
    PatchSucceedsIff(text, kind, wide);
    before, block, after :| IsCut(SplitLines(text), HeaderOf(kind), before, block, after);
    n := 0;
    if MentionsLogin(text, wide) {
      ReplacesTheCut(text, HeaderOf(kind), LoginOf(kind), before, block, after);
    } else {
      ImportLineFacts(kind);
      HeaderFacts(kind);
      IndentOfHeader(block[0], HeaderOf(kind));
      n := ImportedLines(text, wide);
      ReplacedWithLine(text, EnsureImport(text, wide).text, HeaderOf(kind), LoginOf(kind),
                       before, block, after, n, IMPORT_LINE, kind.Func?);
    }
  }

  const COMMENT := "# " + WORD
  const COMMENTED_FLOW := [COMMENT + "\n", CodeLine(4, METHOD_DEF)]

  /** A comment that mentions the name is enough: the patched flow calls it and imports nothing. */
  lemma CommentCountsAsImport(wide: set<WideChar>)
    ensures var r := FlowPatched(JoinLines(COMMENTED_FLOW), Method, wide);
      && r == Patched(COMMENT + "\n" + WithBlankLine(LOGIN_METHOD))
      && Contains(r.text, METHOD_CALL) && !Contains(r.text, IMPORT_HEAD)
  {
    hide SplitLines, MentionsLogin, WithBlankLine, Contains, DefBlockReplaced, IsCut;
    CommentIsMention(wide);
    CommentedFlowIsCut();
    var before, block, after: seq<string> := COMMENTED_FLOW[..1], COMMENTED_FLOW[1..], [];
    ReplacesTheCut(JoinLines(COMMENTED_FLOW), METHOD_HEADER, LOGIN_METHOD, before, block, after);
    assert JoinLines(before) == COMMENT + "\n" by { assert before[1..] == []; }
    assert JoinLines(before) + WithBlankLine(LOGIN_METHOD) + JoinLines(after) == COMMENT + "\n" + WithBlankLine(LOGIN_METHOD);
    CallInLogin(COMMENT + "\n");
    NoImportHead(COMMENT + "\n");
  }

  lemma CallInLogin(front: string)
    ensures Contains(front + WithBlankLine(LOGIN_METHOD), METHOD_CALL)
  {
    hide WithBlankLine, Contains;
    JoinTwo(CodeLine(4, METHOD_DEF), CodeLine(8, METHOD_CALL));
    var more := BlankLineExtends(LOGIN_METHOD);
    var lead := front + CodeLine(4, METHOD_DEF) + Spaces(8);
    WholeContained(METHOD_CALL);
    ContainsInMiddle(lead, METHOD_CALL, "\n" + more, METHOD_CALL);
    MovedParentheses(front, CodeLine(4, METHOD_DEF), Spaces(8), METHOD_CALL, "\n", more);
  }

  lemma MovedParentheses(a: string, b: string, c: string, d: string, e: string, f: string)
    ensures a + ((b + (c + d + e)) + f) == (a + b + c) + d + (e + f)
  {
  }

  lemma WholeContained(s: string)
    ensures Contains(s, s)
  {
    assert At(s, 0, s);
  }

  lemma CommentIsMention(wide: set<WideChar>)
    ensures MentionsLogin(JoinLines(COMMENTED_FLOW), wide)
  {
    var rest := "\n" + CodeLine(4, METHOD_DEF);
    JoinTwo(COMMENT + "\n", CodeLine(4, METHOD_DEF));
    assert JoinLines(COMMENTED_FLOW) == "# " + WORD + rest;
    MentionedBetween("# ", rest, wide);
  }

  lemma CommentedFlowIsCut()
    ensures IsCut(SplitLines(JoinLines(COMMENTED_FLOW)), METHOD_HEADER, COMMENTED_FLOW[..1], COMMENTED_FLOW[1..], [])
  {
    LineWithoutBreaks(COMMENT);
    ShortCodes();
    CodeLineIsGood(4, METHOD_DEF);
    HeaderIsGood(4, METHOD_DEF);
    SplitJoin(COMMENTED_FLOW);
    assert METHOD_HEADER[0] == ' ' && COMMENTED_FLOW[0][0] == '#';
    StartsWithAt(COMMENTED_FLOW[0], METHOD_HEADER, 0);
  }

  lemma BlankLineAddsBreaks(s: string, c: char)
    requires c != '\n' && c !in s
    ensures c !in WithBlankLine(s)
  {
  }

  /** The import head has a `k`; the method and a text in front of it without one have none. */
  lemma NoImportHead(front: string)
    requires 'k' !in front
    ensures !Contains(front + WithBlankLine(LOGIN_METHOD), IMPORT_HEAD)
  {
    hide WithBlankLine, Contains;
    NoKInLogin();
    BlankLineAddsBreaks(LOGIN_METHOD, 'k');
    assert IMPORT_HEAD[10] == 'k';
    ContainedIsMadeOf(front + WithBlankLine(LOGIN_METHOD), IMPORT_HEAD, 10);
  }

  lemma NoKInLogin()
    ensures 'k' !in LOGIN_METHOD
  {
    JoinTwo(CodeLine(4, METHOD_DEF), CodeLine(8, METHOD_CALL));
    assert 'k' !in Spaces(4) && 'k' !in Spaces(8);
    assert 'k' !in METHOD_DEF;
    assert 'k' !in AWAIT && 'k' !in WORD && 'k' !in "(self.ctx, selector=self.selector)";
  }
}
