/** Reading the portal's tables: choosing the table and columns, collecting rows, finding rows by a mark. */
module PortalTable {
  import opened Text

  // ---------------------------------------------------------------- cell text

  /** `\s` of a JavaScript regular expression; `trim` removes the same characters. */
  predicate IsJsSpace(c: char) {
    || '\t' <= c <= '\r' || c == ' ' || c == '\U{00A0}' || c == '\U{1680}' || '\U{2000}' <= c <= '\U{200A}'
    || c == '\U{2028}' || c == '\U{2029}' || c == '\U{202F}' || c == '\U{205F}' || c == '\U{3000}' || c == '\U{FEFF}'
  }

  /** `value.replace(/\s+/g, ' ')` */
  function Collapse(s: string): string
    decreases |s|
  {
    if s == "" then ""
    else if IsJsSpace(s[0]) then " " + Collapse(StripLeft(s, IsJsSpace))
    else [s[0]] + Collapse(s[1..])
  }

  function Clean(s: string): string {
    Strip(Collapse(s), IsJsSpace)
  }

  /** Single spaces only, none of them at either end. */
  ghost predicate IsClean(s: string) {
    && (forall i :: 0 <= i < |s| && IsJsSpace(s[i]) ==> s[i] == ' ' && 0 < i < |s| - 1 && !IsJsSpace(s[i + 1]))
  }

  /** No run of white space: each is one space, followed by something else or the end. */
  ghost predicate SingleSpaced(s: string) {
    forall i :: 0 <= i < |s| && IsJsSpace(s[i]) ==> s[i] == ' ' && (i + 1 < |s| ==> !IsJsSpace(s[i + 1]))
  }

  lemma {:induction false} CollapseIsSingleSpaced(s: string)
    ensures SingleSpaced(Collapse(s))
    ensures s != "" ==> Collapse(s) != "" && (IsJsSpace(Collapse(s)[0]) <==> IsJsSpace(s[0]))
    decreases |s|
  {
    if s != "" {
      if IsJsSpace(s[0]) {
        CollapseIsSingleSpaced(StripLeft(s, IsJsSpace));
      } else {
        CollapseIsSingleSpaced(s[1..]);
      }
    }
  }

  lemma {:induction false} StripLeftOfSingle(s: string)
    requires SingleSpaced(s)
    ensures SingleSpaced(StripLeft(s, IsJsSpace))
    decreases |s|
  {
    if s != "" && IsJsSpace(s[0]) {
      assert forall i :: 0 <= i < |s| - 1 ==> s[1..][i] == s[i + 1];
      StripLeftOfSingle(s[1..]);
    }
  }

  lemma CleanIsClean(s: string)
    ensures IsClean(Clean(s))
  {
    CollapseIsSingleSpaced(s);
    StripLeftOfSingle(Collapse(s));
    var r := Clean(s);
    assert forall i :: 0 <= i < |r| ==> r[i] == StripLeft(Collapse(s), IsJsSpace)[i];
  }

  function WordEnd(s: string): (n: nat)
    ensures n <= |s| && (n < |s| ==> IsJsSpace(s[n]))
    ensures forall i :: 0 <= i < n ==> !IsJsSpace(s[i])
  {
    if s == "" || IsJsSpace(s[0]) then 0 else 1 + WordEnd(s[1..])
  }

  /** The words of a text: its maximal stretches without white space, in order. */
  function Words(s: string): seq<string>
    decreases |s|
  {
    var rest := StripLeft(s, IsJsSpace);
    if rest == "" then [] else [rest[..WordEnd(rest)]] + Words(rest[WordEnd(rest)..])
  }

  function Spaced(words: seq<string>): string {
    if words == [] then "" else if |words| == 1 then words[0] else words[0] + " " + Spaced(words[1..])
  }

  lemma {:induction false} CollapseWord(word: string, rest: string)
    requires forall i :: 0 <= i < |word| ==> !IsJsSpace(word[i])
    ensures Collapse(word + rest) == word + Collapse(rest)
    decreases |word|
  {
    if word == "" {
      assert word + rest == rest;
    } else {
      assert (word + rest)[1..] == word[1..] + rest;
      CollapseWord(word[1..], rest);
      assert [word[0]] + (word[1..] + Collapse(rest)) == word + Collapse(rest);
    }
  }

  predicate EndsInSpace(s: string) {
    s != "" && IsJsSpace(s[|s| - 1])
  }

  lemma {:induction false} StripLeftKeepsEnd(s: string)
    ensures var r := StripLeft(s, IsJsSpace); r != "" ==> r[|r| - 1] == s[|s| - 1]
    ensures StripLeft(s, IsJsSpace) == "" && s != "" ==> EndsInSpace(s)
  {
    if s != "" && IsJsSpace(s[0]) {
      StripLeftKeepsEnd(s[1..]);
    }
  }

  /** A text that begins with a word: the word, and what comes after the white space that ends it. */
  lemma FirstWord(s: string) returns (word: string, next: string)
    requires s != "" && !IsJsSpace(s[0])
    ensures |next| < |s| && word != "" && IsCore(word, IsJsSpace) && (next != "" ==> !IsJsSpace(next[0]))
    ensures Words(s) == [word] + Words(next)
    ensures Collapse(s) == word + if word == s then "" else " " + Collapse(next)
    ensures if next != "" then EndsInSpace(next) == EndsInSpace(s) else EndsInSpace(s) == (word != s)
    ensures word == s ==> next == ""
  {
    hide Collapse, StripLeft, Words;
    var n := WordEnd(s);
    var rest := s[n..];
    word, next := s[..n], StripLeft(rest, IsJsSpace);
    assert s == word + rest;
    CollapseWord(word, rest);
    CollapseRest(rest);
    StripLeftKeepsEnd(rest);
    WordsOf(s);
    assert rest != "" ==> rest[|rest| - 1] == s[|s| - 1];
  }

  lemma CollapseRest(rest: string)
    requires rest != "" ==> IsJsSpace(rest[0])
    ensures Collapse(rest) == if rest == "" then "" else " " + Collapse(StripLeft(rest, IsJsSpace))
  {
  }

  lemma WordsOf(s: string)
    requires s != "" && !IsJsSpace(s[0])
    ensures Words(s) == [s[..WordEnd(s)]] + Words(StripLeft(s[WordEnd(s)..], IsJsSpace))
  {
    StripTwice(s[WordEnd(s)..]);
  }

  lemma StripTwice(s: string)
    ensures var next := StripLeft(s, IsJsSpace); StripLeft(next, IsJsSpace) == next && Words(next) == Words(s)
  {
  }

  /** A text that begins with a word collapses to its words, and one space where it ends in white space. */
  lemma {:induction false} CollapseIsSpaced(s: string)
    requires s != "" && !IsJsSpace(s[0])
    ensures Collapse(s) == Spaced(Words(s)) + (if EndsInSpace(s) then " " else "")
    ensures IsCore(Spaced(Words(s)), IsJsSpace) && Spaced(Words(s)) != ""
    decreases |s|
  {
    hide Words, Collapse, EndsInSpace;
    var word, next := FirstWord(s);
    if next == "" {
      NoWords();
      assert [word] + [] == [word];
    } else {
      CollapseIsSpaced(next);
      SomeWords(next);
      SpacedMore(word, Words(next));
      var tail := if EndsInSpace(s) then " " else "";
      assert word + (" " + (Spaced(Words(next)) + tail)) == (word + " " + Spaced(Words(next))) + tail;
    }
  }

  lemma NoWords()
    ensures Words("") == [] && Collapse("") == ""
  {
  }

  lemma SomeWords(s: string)
    requires s != "" && !IsJsSpace(s[0])
    ensures Words(s) != []
  {
  }

  lemma SpacedMore(word: string, words: seq<string>)
    requires words != []
    ensures Spaced([word] + words) == word + " " + Spaced(words)
  {
    assert ([word] + words)[1..] == words;
  }

  /** Cleaning keeps the words of a text, in order, one space between: nothing else is lost, and nothing added. */
  lemma CleanIsWords(s: string)
    ensures Clean(s) == Spaced(Words(s))
  {
    hide Collapse, Words, StripLeft, EndsInSpace, Strip;
    var next := StripLeft(s, IsJsSpace);
    StripTwice(s);
    LeadingSpaces(s);
    NoWords();
    var lead := if next == s then "" else " ";
    if next == "" {
      assert Collapse(s) == lead + "" + "";
      StripOf(lead, "", "", IsJsSpace);
    } else {
      CollapseIsSpaced(next);
      var tail := if EndsInSpace(next) then " " else "";
      assert Collapse(s) == lead + Spaced(Words(next)) + tail;
      StripOf(lead, Spaced(Words(next)), tail, IsJsSpace);
    }
  }

  lemma LeadingSpaces(s: string)
    ensures var next := StripLeft(s, IsJsSpace);
      Collapse(s) == (if next == s then "" else " ") + Collapse(next)
  {
  }

  // ---------------------------------------------------------------- columns

  function ExactIndex(headers: seq<string>, name: string): (r: int)
    ensures -1 <= r < |headers| && (r >= 0 ==> headers[r] == name)
    ensures forall i :: 0 <= i < |headers| && (r == -1 || i < r) ==> headers[i] != name
  {
    if headers == [] then -1
    else if headers[0] == name then 0
    else if ExactIndex(headers[1..], name) < 0 then -1 else 1 + ExactIndex(headers[1..], name)
  }

  function PartialIndex(headers: seq<string>, name: string): (r: int)
    ensures -1 <= r < |headers| && (r >= 0 ==> Contains(headers[r], name))
    ensures forall i :: 0 <= i < |headers| && (r == -1 || i < r) ==> !Contains(headers[i], name)
  {
    if headers == [] then -1
    else if Contains(headers[0], name) then 0
    else if PartialIndex(headers[1..], name) < 0 then -1 else 1 + PartialIndex(headers[1..], name)
  }

  /** `indexOfAny(...names)`: every exact match is tried before any partial one. */
  method IndexOfAny(headers: seq<string>, names: seq<string>) returns (r: int)
    ensures r == ColumnOf(headers, names)
  {
    for k := 0 to |names|
      invariant forall m :: 0 <= m < k ==> ExactIndex(headers, names[m]) < 0
    {
      var exact := ExactIndex(headers, names[k]);
      if exact >= 0 {
        FirstIs(headers, names, k);
        return exact;
      }
    }
    for k := 0 to |names|
      invariant forall m :: 0 <= m < k ==> PartialIndex(headers, names[m]) < 0
    {
      var fuzzy := PartialIndex(headers, names[k]);
      if fuzzy >= 0 {
        FirstIs(headers, names, k);
        return fuzzy;
      }
    }
    return -1;
  }

  /** The first name with an exact header, as its number in `names`, or -1. */
  function FirstExact(headers: seq<string>, names: seq<string>): (k: int)
    ensures -1 <= k < |names| && (k >= 0 ==> ExactIndex(headers, names[k]) >= 0)
    ensures forall m :: 0 <= m < |names| && (k == -1 || m < k) ==> ExactIndex(headers, names[m]) < 0
  {
    if names == [] then -1
    else if ExactIndex(headers, names[0]) >= 0 then 0
    else if FirstExact(headers, names[1..]) < 0 then -1 else 1 + FirstExact(headers, names[1..])
  }

  function FirstPartial(headers: seq<string>, names: seq<string>): (k: int)
    ensures -1 <= k < |names| && (k >= 0 ==> PartialIndex(headers, names[k]) >= 0)
    ensures forall m :: 0 <= m < |names| && (k == -1 || m < k) ==> PartialIndex(headers, names[m]) < 0
  {
    if names == [] then -1
    else if PartialIndex(headers, names[0]) >= 0 then 0
    else if FirstPartial(headers, names[1..]) < 0 then -1 else 1 + FirstPartial(headers, names[1..])
  }

  function ColumnOf(headers: seq<string>, names: seq<string>): int {
    var e, p := FirstExact(headers, names), FirstPartial(headers, names);
    if e >= 0 then ExactIndex(headers, names[e])
    else if p >= 0 then PartialIndex(headers, names[p])
    else -1
  }

  lemma FirstIs(headers: seq<string>, names: seq<string>, k: nat)
    requires k < |names|
    ensures ExactIndex(headers, names[k]) >= 0 && (forall m :: 0 <= m < k ==> ExactIndex(headers, names[m]) < 0)
        ==> FirstExact(headers, names) == k
    ensures PartialIndex(headers, names[k]) >= 0 && (forall m :: 0 <= m < k ==> PartialIndex(headers, names[m]) < 0)
        ==> FirstPartial(headers, names) == k
  {
  }

  /** No column is found exactly when no header contains any of the names. */
  lemma NoColumnIff(headers: seq<string>, names: seq<string>)
    ensures ColumnOf(headers, names) == -1
       <==> forall i, k :: 0 <= i < |headers| && 0 <= k < |names| ==> !Contains(headers[i], names[k])
    ensures -1 <= ColumnOf(headers, names) < |headers|
  {
    var e := FirstExact(headers, names);
    if e >= 0 {
      var i := ExactIndex(headers, names[e]);
      assert At(headers[i], 0, names[e]);
    }
  }

  /**
   * The column found: the first header equal to the first name that has an equal header; only when
   * no name has one, the first header that contains the first name any header contains.
   */
  lemma ColumnFound(headers: seq<string>, names: seq<string>) returns (k: nat)
    requires ColumnOf(headers, names) >= 0
    ensures var c := ColumnOf(headers, names);
      && k < |names| && c < |headers|
      && if exists i, m :: 0 <= i < |headers| && 0 <= m < |names| && headers[i] == names[m]
         then headers[c] == names[k] && (forall i :: 0 <= i < c ==> headers[i] != names[k])
              && forall i, m :: 0 <= i < |headers| && 0 <= m < k ==> headers[i] != names[m]
         else Contains(headers[c], names[k]) && (forall i :: 0 <= i < c ==> !Contains(headers[i], names[k]))
              && forall i, m :: 0 <= i < |headers| && 0 <= m < k ==> !Contains(headers[i], names[m])
  {
    var e := FirstExact(headers, names);
    if e >= 0 {
      k := e;
      assert headers[ExactIndex(headers, names[e])] == names[e];
    } else {
      k := FirstPartial(headers, names);
    }
  }

  /**
   * Column `c` for some names: the first header equal to the first name that has an equal header; where no name
   * has one, the first header that contains the first name any header contains; and -1 where none does.
   */
  ghost predicate IsColumn(headers: seq<string>, names: seq<string>, c: int) {
    if exists i, m :: 0 <= i < |headers| && 0 <= m < |names| && headers[i] == names[m]
    then exists k :: 0 <= k < |names| && IsFirstEqual(headers, names, c, k)
    else if exists i, m :: 0 <= i < |headers| && 0 <= m < |names| && Contains(headers[i], names[m])
    then exists k :: 0 <= k < |names| && IsFirstContaining(headers, names, c, k)
    else c == -1
  }

  ghost predicate IsFirstEqual(headers: seq<string>, names: seq<string>, c: int, k: int)
    requires 0 <= k < |names|
  {
    && 0 <= c < |headers| && headers[c] == names[k]
    && (forall i :: 0 <= i < c ==> headers[i] != names[k])
    && forall i, m :: 0 <= i < |headers| && 0 <= m < k ==> headers[i] != names[m]
  }

  ghost predicate IsFirstContaining(headers: seq<string>, names: seq<string>, c: int, k: int)
    requires 0 <= k < |names|
  {
    && 0 <= c < |headers| && Contains(headers[c], names[k])
    && (forall i :: 0 <= i < c ==> !Contains(headers[i], names[k]))
    && forall i, m :: 0 <= i < |headers| && 0 <= m < k ==> !Contains(headers[i], names[m])
  }

  lemma ColumnIsColumn(headers: seq<string>, names: seq<string>)
    ensures IsColumn(headers, names, ColumnOf(headers, names))
  {
    hide Contains;
    var c := ColumnOf(headers, names);
    NoColumnIff(headers, names);
    if c >= 0 {
      var k := ColumnFound(headers, names);
      assert IsFirstEqual(headers, names, c, k) || IsFirstContaining(headers, names, c, k);
    } else {
      forall i, m | 0 <= i < |headers| && 0 <= m < |names| ensures headers[i] != names[m] {
        ContainsItself(headers[i]);
      }
    }
  }

  lemma ContainsItself(s: string)
    ensures Contains(s, s)
  {
    assert At(s, 0, s);
  }

  /** There is only one such column. */
  lemma OneColumn(headers: seq<string>, names: seq<string>, c: int, d: int)
    requires IsColumn(headers, names, c) && IsColumn(headers, names, d)
    ensures c == d
  {
    hide Contains;
  }

  // ---------------------------------------------------------------- the table and its rows

  datatype Table = Table(headers: seq<string>, body: seq<seq<string>>)

  /** The first table with the most body rows: a stable sort by descending row count, then its head. */
  function Largest(tables: seq<Table>): (k: int)
    requires tables != []
    ensures 0 <= k < |tables|
    ensures forall i :: 0 <= i < |tables| ==> |tables[i].body| <= |tables[k].body|
    ensures forall i :: 0 <= i < k ==> |tables[i].body| < |tables[k].body|
  {
    if |tables| == 1 then 0
    else
      var k := Largest(tables[..|tables| - 1]);
      if |tables[|tables| - 1].body| > |tables[k].body| then |tables| - 1 else k
  }

  datatype Columns = Columns(poNo: int, orderDate: int, orderType: int, totalAmount: int,
                             replyStatus: int, deliveryStatus: int, orgName: int)

  datatype Order = Order(poNo: string, orderDate: string, orderType: string, totalAmount: string,
                         replyStatus: string, deliveryStatus: string, orgName: string)

  datatype Collected = NoTable | HeadersMissing(headers: seq<string>, columns: Columns)
                     | Orders(headers: seq<string>, columns: Columns, rows: seq<Order>)

  function CleanAll(texts: seq<string>): (r: seq<string>)
    ensures |r| == |texts| && forall i :: 0 <= i < |texts| ==> r[i] == Clean(texts[i])
  {
    seq(|texts|, i requires 0 <= i < |texts| => Clean(texts[i]))
  }

  function ColumnsOf(headers: seq<string>): Columns {
    Columns(
      ColumnOf(headers, ["订单编号", "采购单号"]),
      ColumnOf(headers, ["日期"]),
      ColumnOf(headers, ["订单类型"]),
      ColumnOf(headers, ["总金额(元)", "总金额"]),
      ColumnOf(headers, ["回复状态"]),
      ColumnOf(headers, ["交货状态", "发货状态"]),
      ColumnOf(headers, ["所属单位", "供应商单位", "主体"]))
  }

  /** The cleaned cell under a column, or empty when the row has no such cell. */
  function Cell(row: seq<string>, column: int): string {
    if 0 <= column < |row| then Clean(row[column]) else ""
  }

  function OrderOf(row: seq<string>, c: Columns): Order {
    Order(Cell(row, c.poNo), Cell(row, c.orderDate), Cell(row, c.orderType), Cell(row, c.totalAmount),
          Cell(row, c.replyStatus), Cell(row, c.deliveryStatus), Cell(row, c.orgName))
  }

  /** The cleaned cell of the row under a column, or empty where the row has none. */
  predicate IsCell(text: string, row: seq<string>, column: int) {
    text == if 0 <= column < |row| then Clean(row[column]) else ""
  }

  /** Each field of the order is the cell under its own column. */
  predicate IsOrder(o: Order, row: seq<string>, c: Columns) {
    && IsCell(o.poNo, row, c.poNo) && IsCell(o.orderDate, row, c.orderDate) && IsCell(o.orderType, row, c.orderType)
    && IsCell(o.totalAmount, row, c.totalAmount) && IsCell(o.replyStatus, row, c.replyStatus)
    && IsCell(o.deliveryStatus, row, c.deliveryStatus) && IsCell(o.orgName, row, c.orgName)
  }

  predicate InOrder(numbers: seq<int>) {
    forall i, j :: 0 <= i < j < |numbers| ==> numbers[i] < numbers[j]
  }

  /** `rows` come from the body rows `kept`, in order: those of the first `n` whose number is neither empty nor `--`. */
  ghost predicate CollectedFrom(rows: seq<Order>, body: seq<seq<string>>, n: nat, c: Columns, kept: seq<int>)
    requires n <= |body|
  {
    && InOrder(kept) && |rows| == |kept|
    && (forall i :: i in kept ==> 0 <= i < n)
    && (forall i :: 0 <= i < n ==> (i in kept <==> !IsCell("", body[i], c.poNo) && !IsCell("--", body[i], c.poNo)))
    && forall j :: 0 <= j < |rows| ==> kept[j] in kept && IsOrder(rows[j], body[kept[j]], c)
  }

  method CollectRows(body: seq<seq<string>>, c: Columns) returns (rows: seq<Order>)
    ensures exists kept :: CollectedFrom(rows, body, |body|, c, kept)
  {
    hide IsOrder, IsCell, OrderOf, Cell, CollectedFrom;
    rows := [];
    ghost var kept := [];
    NothingCollected(body, c);
    for i := 0 to |body|
      invariant CollectedFrom(rows, body, i, c, kept)
    {
      var row := body[i];
      var poNo := Cell(row, c.poNo);
      OneMoreCollected(rows, body, i, c, kept);
      if poNo == "" || poNo == "--" {
        continue;
      }
      rows := rows + [OrderOf(row, c)];
      kept := kept + [i];
    }
  }

  lemma NothingCollected(body: seq<seq<string>>, c: Columns)
    ensures CollectedFrom([], body, 0, c, [])
  {
  }

  lemma OrderOfIsOrder(row: seq<string>, c: Columns)
    ensures IsOrder(OrderOf(row, c), row, c)
    ensures forall text :: IsCell(text, row, c.poNo) <==> text == Cell(row, c.poNo)
  {
    hide Clean;
  }

  lemma OneMoreCollected(rows: seq<Order>, body: seq<seq<string>>, n: nat, c: Columns, kept: seq<int>)
    requires n < |body| && CollectedFrom(rows, body, n, c, kept)
    ensures var poNo := Cell(body[n], c.poNo);
      if poNo == "" || poNo == "--" then CollectedFrom(rows, body, n + 1, c, kept)
      else CollectedFrom(rows + [OrderOf(body[n], c)], body, n + 1, c, kept + [n])
  {
    hide IsOrder, IsCell, OrderOf, Cell;
    OrderOfIsOrder(body[n], c);
    if Cell(body[n], c.poNo) == "" || Cell(body[n], c.poNo) == "--" {
    } else {
      KeptOneMore(kept, n);
      assert forall j :: 0 <= j < |rows| ==> (kept + [n])[j] == kept[j] && (rows + [OrderOf(body[n], c)])[j] == rows[j];
    }
  }

  lemma KeptOneMore(kept: seq<int>, n: nat)
    requires InOrder(kept) && forall i :: i in kept ==> 0 <= i < n
    ensures InOrder(kept + [n])
    ensures forall i :: i in kept + [n] <==> i in kept || i == n
  {
    forall i, j | 0 <= i < j < |kept + [n]| ensures (kept + [n])[i] < (kept + [n])[j] {
      assert kept[i] in kept;
    }
  }

  /** The seven columns, each found by the names that belong to it. */
  ghost predicate AreColumns(headers: seq<string>, c: Columns) {
    && IsColumn(headers, ["订单编号", "采购单号"], c.poNo)
    && IsColumn(headers, ["日期"], c.orderDate)
    && IsColumn(headers, ["订单类型"], c.orderType)
    && IsColumn(headers, ["总金额(元)", "总金额"], c.totalAmount)
    && IsColumn(headers, ["回复状态"], c.replyStatus)
    && IsColumn(headers, ["交货状态", "发货状态"], c.deliveryStatus)
    && IsColumn(headers, ["所属单位", "供应商单位", "主体"], c.orgName)
  }

  lemma ColumnsAreColumns(headers: seq<string>)
    ensures AreColumns(headers, ColumnsOf(headers))
  {
    hide IsColumn, ColumnOf;
    ColumnIsColumn(headers, ["订单编号", "采购单号"]);
    ColumnIsColumn(headers, ["日期"]);
    ColumnIsColumn(headers, ["订单类型"]);
    ColumnIsColumn(headers, ["总金额(元)", "总金额"]);
    ColumnIsColumn(headers, ["回复状态"]);
    ColumnIsColumn(headers, ["交货状态", "发货状态"]);
    ColumnIsColumn(headers, ["所属单位", "供应商单位", "主体"]);
  }

  /** Table `k` is the first of those with the most body rows. */
  ghost predicate IsFirstLargest(tables: seq<Table>, k: int) {
    && 0 <= k < |tables|
    && (forall i :: 0 <= i < |tables| ==> |tables[i].body| <= |tables[k].body|)
    && forall i :: 0 <= i < k ==> |tables[i].body| < |tables[k].body|
  }

  /** The headers and columns reported are those of the table. */
  ghost predicate AreHeadersOf(headers: seq<string>, columns: Columns, t: Table) {
    && |headers| == |t.headers| && (forall i :: 0 <= i < |headers| ==> headers[i] == Clean(t.headers[i]))
    && AreColumns(headers, columns)
  }

  /** The result is what the table gives: an error for want of a number or reply status column, else its orders. */
  ghost predicate IsReadFrom(r: Collected, t: Table) {
    && !r.NoTable? && AreHeadersOf(r.headers, r.columns, t)
    && (r.HeadersMissing? <==> r.columns.poNo < 0 || r.columns.replyStatus < 0)
    && (r.Orders? ==> exists kept :: CollectedFrom(r.rows, t.body, |t.body|, r.columns, kept))
  }

  method CollectOrders(tables: seq<Table>) returns (r: Collected)
    ensures r.NoTable? <==> tables == []
    ensures tables != [] ==> exists k :: IsFirstLargest(tables, k) && IsReadFrom(r, tables[k])
  {
    hide AreColumns, CollectedFrom, Clean;
    if tables == [] {
      return NoTable;
    }
    ghost var k := Largest(tables);
    assert IsFirstLargest(tables, k);
    var t := tables[Largest(tables)];
    var headers := CleanAll(t.headers);
    var c := ColumnsOf(headers);
    ColumnsAreColumns(headers);
    assert AreHeadersOf(headers, c, tables[k]);
    if c.poNo < 0 || c.replyStatus < 0 {
      r := HeadersMissing(headers, c);
      assert IsReadFrom(r, tables[k]);
      return;
    }
    var rows := CollectRows(t.body, c);
    r := Orders(headers, c, rows);
    assert IsReadFrom(r, tables[k]);
  }

  // ---------------------------------------------------------------- rows by a mark

  /** One entry of a row dictionary, in insertion order; `text` is `str(value)`. */
  datatype Entry = Entry(key: string, text: string)
  datatype Row = Row(entries: seq<Entry>, buttons: seq<string>)

  const PENDING_SIGN := "待签章"
  const UNCHECKED := "未对账"

  /** `" ".join(str(value) for value in row.values())` */
  function Blob(entries: seq<Entry>): string {
    if entries == [] then ""
    else if |entries| == 1 then entries[0].text
    else entries[0].text + " " + Blob(entries[1..])
  }

  ghost predicate SomeCell(row: Row, mark: string) {
    exists k :: 0 <= k < |row.entries| && Contains(row.entries[k].text, mark)
  }

  lemma OccurrenceCovers(t: string, i: int, k: int, mark: string)
    ensures At(t, i, mark) && i <= k < i + |mark| ==> t[k] in mark
  {
    if At(t, i, mark) && i <= k < i + |mark| {
      assert t[i..i + |mark|][k - i] == t[k];
    }
  }

  /** A mark without a space cannot lie across the joining space. */
  lemma AcrossSpace(a: string, b: string, mark: string)
    requires mark != "" && ' ' !in mark
    ensures Contains(a + " " + b, mark) <==> Contains(a, mark) || Contains(b, mark)
  {
    var t := a + " " + b;
    assert [] + a + (" " + b) == t && (a + " ") + b + [] == t;
    if Contains(a, mark) {
      ContainsInMiddle([], a, " " + b, mark);
    }
    if Contains(b, mark) {
      ContainsInMiddle(a + " ", b, [], mark);
    }
    if Contains(t, mark) {
      var i :| 0 <= i <= |t| && At(t, i, mark);
      OccurrenceCovers(t, i, |a|, mark);
      AtInMiddle([], a, " " + b, i, mark);
      AtInMiddle(a + " ", b, [], i - |a| - 1, mark);
    }
  }

  /** A space-free mark occurs in the joined row exactly when it occurs in some cell. */
  lemma {:induction false} BlobHasMark(entries: seq<Entry>, mark: string)
    requires mark != "" && ' ' !in mark
    ensures Contains(Blob(entries), mark) <==> exists k :: 0 <= k < |entries| && Contains(entries[k].text, mark)
  {
    if |entries| > 1 {
      BlobHasMark(entries[1..], mark);
      AcrossSpace(entries[0].text, Blob(entries[1..]), mark);
      var rest := entries[1..];
      assert forall k :: 1 <= k < |entries| ==> entries[k] == rest[k - 1];
      if k :| 0 <= k < |rest| && Contains(rest[k].text, mark) {
        assert entries[k + 1] == rest[k];
      }
    } else if entries == [] {
      assert forall i :: !At("", i, mark);
    }
  }

  ghost function MarkedRows(rows: seq<Row>, n: nat, mark: string): set<int>
    requires n <= |rows|
  {
    set i | 0 <= i < n && SomeCell(rows[i], mark)
  }

  /** `count_pending_sign`: the number of rows with a cell that has the mark. */
  method CountPendingSign(rows: seq<Row>) returns (total: nat)
    ensures total == |MarkedRows(rows, |rows|, PENDING_SIGN)|
  {
    total := 0;
    assert MarkedRows(rows, 0, PENDING_SIGN) == {};
    for i := 0 to |rows|
      invariant total == |MarkedRows(rows, i, PENDING_SIGN)|
    {
      var blob := Blob(rows[i].entries);
      BlobHasMark(rows[i].entries, PENDING_SIGN);
      OneMoreRow(rows, i, PENDING_SIGN);
      if Contains(blob, PENDING_SIGN) {
        total := total + 1;
      }
    }
  }

  lemma OneMoreRow(rows: seq<Row>, n: nat, mark: string)
    requires n < |rows|
    ensures n !in MarkedRows(rows, n, mark)
    ensures MarkedRows(rows, n + 1, mark) == MarkedRows(rows, n, mark) + if SomeCell(rows[n], mark) then {n} else {}
  {
  }

  predicate FieldFor(e: Entry, mark: string) {
    !StartsWith(e.key, "_") && Contains(e.key, mark) && e.text != ""
  }

  ghost predicate IsFirstField(entries: seq<Entry>, mark: string, k: int) {
    0 <= k < |entries| && FieldFor(entries[k], mark) && forall m :: 0 <= m < k ==> !FieldFor(entries[m], mark)
  }

  /** The text of the first non-empty public column whose name has the mark, or empty. */
  function FirstField(entries: seq<Entry>, mark: string): (text: string)
    ensures text == "" <==> forall k :: 0 <= k < |entries| ==> !FieldFor(entries[k], mark)
    ensures text != "" ==> exists k :: IsFirstField(entries, mark, k) && entries[k].text == text
  {
    if entries == [] then ""
    else
      var n := |entries| - 1;
      var earlier := FirstField(entries[..n], mark);
      if earlier == "" && FieldFor(entries[n], mark) then
        assert IsFirstField(entries, mark, n);
        entries[n].text
      else
        assert forall k :: IsFirstField(entries[..n], mark, k) ==> IsFirstField(entries, mark, k);
        earlier
  }

  datatype Unchecked = Unchecked(checkDate: string, checkAmount: string, buttons: seq<string>)

  ghost predicate IsFirstMarked(rows: seq<Row>, i: int, mark: string) {
    0 <= i < |rows| && SomeCell(rows[i], mark) && forall m :: 0 <= m < i ==> !SomeCell(rows[m], mark)
  }

  /** A column whose name is not private and has the mark, and whose text is not empty. */
  predicate IsPublicField(e: Entry, mark: string) {
    (e.key == "" || e.key[0] != '_') && Contains(e.key, mark) && e.text != ""
  }

  /** The text of the first such column; empty where there is none. */
  ghost predicate IsFieldText(text: string, entries: seq<Entry>, mark: string) {
    if k :| 0 <= k < |entries| && IsPublicField(entries[k], mark) && (forall m :: 0 <= m < k ==> !IsPublicField(entries[m], mark))
    then text == entries[k].text
    else text == ""
  }

  ghost predicate IsUncheckedOf(u: Unchecked, row: Row) {
    && IsFieldText(u.checkDate, row.entries, "日期") && IsFieldText(u.checkAmount, row.entries, "额")
    && u.buttons == row.buttons
  }

  lemma PublicIff(e: Entry, mark: string)
    ensures FieldFor(e, mark) <==> IsPublicField(e, mark)
  {
    if e.key != "" {
      assert e.key[..1] == [e.key[0]];
    }
  }

  lemma FirstFieldIsText(entries: seq<Entry>, mark: string)
    ensures IsFieldText(FirstField(entries, mark), entries, mark)
  {
    hide FirstField, FieldFor, IsPublicField;
    forall k | 0 <= k < |entries| ensures FieldFor(entries[k], mark) <==> IsPublicField(entries[k], mark) {
      PublicIff(entries[k], mark);
    }
  }

  /** `find_unchecked`: the first row with the mark, with its first non-empty date and amount columns. */
  method FindUnchecked(rows: seq<Row>) returns (r: Option<Unchecked>)
    ensures r.None? <==> forall i :: 0 <= i < |rows| ==> !SomeCell(rows[i], UNCHECKED)
    ensures r.Some? ==> exists i :: IsFirstMarked(rows, i, UNCHECKED) && IsUncheckedOf(r.value, rows[i])
  {
    for i := 0 to |rows|
      invariant forall m :: 0 <= m < i ==> !SomeCell(rows[m], UNCHECKED)
    {
      var row := rows[i];
      BlobHasMark(row.entries, UNCHECKED);
      if Contains(Blob(row.entries), UNCHECKED) {
        var date, amount := DateAndAmount(row.entries);
        FirstFieldIsText(row.entries, "日期");
        FirstFieldIsText(row.entries, "额");
        assert IsFirstMarked(rows, i, UNCHECKED);
        return Some(Unchecked(date, amount, row.buttons));
      }
    }
    return None;
  }

  method DateAndAmount(entries: seq<Entry>) returns (date: string, amount: string)
    ensures date == FirstField(entries, "日期") && amount == FirstField(entries, "额")
  {
    date, amount := "", "";
    for k := 0 to |entries|
      invariant date == FirstField(entries[..k], "日期") && amount == FirstField(entries[..k], "额")
    {
      assert entries[..k + 1][..k] == entries[..k];
      var e := entries[k];
      if StartsWith(e.key, "_") {
        continue;
      }
      if Contains(e.key, "日期") && date == "" {
        date := e.text;
      }
      if Contains(e.key, "额") && amount == "" {
        amount := e.text;
      }
    }
    assert entries[..|entries|] == entries;
  }
}
