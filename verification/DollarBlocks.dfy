/**
  What the splitter does to dollar-quoted blocks, in terms of the text alone: which lines open a
  quote, which close it, and that a block stays in one piece whatever semicolons it holds.
 */
module DollarBlocks {
  import opened Base
  import opened Splitter

  /** `sub` occurs in `s`. */
  ghost predicate Has(s: string, sub: string) {
    exists i :: At(s, sub, i)
  }

  predicate Spaces(s: string) {
    forall i | 0 <= i < |s| :: IsSpace(s[i])
  }

  // ---- trimming ----

  lemma {:induction false} TrimmedLeft(s: string) returns (a: string)
    ensures s == a + TrimLeft(s) && Spaces(a)
    ensures TrimLeft(s) != "" ==> !IsSpace(TrimLeft(s)[0])
  {
    a := "";
    if s != "" && IsSpace(s[0]) {
      a := TrimmedLeft(s[1..]);
      a := [s[0]] + a;
    }
  }

  lemma {:induction false} TrimmedRight(s: string) returns (b: string)
    ensures s == TrimRight(s) + b && Spaces(b)
    ensures TrimRight(s) != "" ==> !IsSpace(TrimRight(s)[|TrimRight(s)| - 1])
  {
    b := "";
    if s != "" && IsSpace(s[|s| - 1]) {
      b := TrimmedRight(s[..|s| - 1]);
      b := b + [s[|s| - 1]];
    }
  }

  /** Trimming takes spaces off both ends, and all of them. */
  lemma TrimmedBoth(s: string) returns (a: string, b: string)
    ensures s == a + TrimSpace(s) + b && Spaces(a) && Spaces(b)
    ensures TrimSpace(s) != "" ==> !IsSpace(TrimSpace(s)[0]) && !IsSpace(TrimSpace(s)[|TrimSpace(s)| - 1])
  {
    a := TrimmedLeft(s);
    b := TrimmedRight(TrimLeft(s));
    assert TrimSpace(s) != "" ==> TrimLeft(s)[0] == TrimSpace(s)[0];
  }

  /** A text between dollars, or a dollar alone, survives trimming. */
  predicate Dollars(tag: string) {
    tag != "" && tag[0] == '$' && tag[|tag| - 1] == '$'
  }

  lemma TrimAround(pre: string, tag: string, post: string) returns (left: string, right: string)
    requires Dollars(tag)
    ensures TrimSpace(pre + tag + post) == left + tag + right
    ensures |left| <= |pre| && left == pre[|pre| - |left|..]
    ensures |right| <= |post| && right == post[..|right|]
  {
    var s := pre + tag + post;
    var a, b := TrimmedBoth(s);
    var n := |s| - |b|;
    assert s[|pre|] == '$' && s[|pre| + |tag| - 1] == '$';
    assert forall i | 0 <= i < |a| || n <= i < |s| :: IsSpace(s[i]);
    left, right := pre[|a|..], post[..n - |pre| - |tag|];
    assert TrimSpace(s) == s[|a|..n] == left + tag + right;
  }

  lemma TrimKeepsTag(line: string, tag: string)
    requires Dollars(tag)
    ensures Has(TrimSpace(line), tag) <==> Has(line, tag)
  {
    var a, b := TrimmedBoth(line);
    if Has(TrimSpace(line), tag) {
      var i :| At(TrimSpace(line), tag, i);
      assert At(line, tag, |a| + i);
    }
    if Has(line, tag) {
      var i :| At(line, tag, i);
      assert line == line[..i] + tag + line[i + |tag|..];
      var left, right := TrimAround(line[..i], tag, line[i + |tag|..]);
      assert At(left + tag + right, tag, |left|);
    }
  }

  lemma ContainsIsHas(s: string, sub: string)
    ensures Contains(s, sub) <==> Has(s, sub)
  {
    if Has(s, sub) {
      var i :| At(s, sub, i);
    }
  }

  // ---- opening a quote ----

  lemma NoDollarFound(s: string)
    requires NoDollar(s)
    ensures Index(s, "$") == None
  {
    forall j | 0 <= j < |s|
      ensures !At(s, "$", j)
    {
      assert s[j] in s;
    }
  }

  lemma NoDollarOpensNothing(s: string)
    requires NoDollar(s)
    ensures Opens(s) == None
  {
    NoDollarFound(s);
  }

  lemma LoneDollarOpensNothing(pre: string, post: string)
    requires NoDollar(pre) && NoDollar(post)
    ensures Opens(pre + "$" + post) == None
  {
    FirstDollar(pre, post);
    assert (pre + "$" + post)[|pre|..] == "$" + post;
    assert ("$" + post)[1..] == post;
    assert post != "" ==> post[0] in post;
    NoDollarFound(post);
  }

  lemma HasInPrefix(s: string, n: nat, sub: string)
    requires n <= |s| && Has(s[..n], sub)
    ensures Has(s, sub)
  {
    var i :| At(s[..n], sub, i);
    assert At(s, sub, i);
  }

  /** An unnamed quote opens exactly when its line does not close it again. */
  lemma TwoDollars(pre: string, post: string)
    requires NoDollar(pre)
    ensures Opens(pre + "$$" + post) == if Has(post, "$$") then None else Some("$$")
  {
    var tail := "$" + post;
    assert pre + "$$" + post == pre + "$" + tail;
    FirstDollar(pre, tail);
    assert (pre + "$" + tail)[|pre|..] == "$$" + post;
    assert ("$$" + post)[2..] == post;
    ContainsIsHas(post, "$$");
  }

  predicate Comment(line: string) {
    "--" <= TrimSpace(line) || "/*" <= TrimSpace(line)
  }

  predicate Semicolon(line: string) {
    TrimSpace(line) != "" && TrimSpace(line)[|TrimSpace(line)| - 1] == ';'
  }

  /** The line opens a quote with the tag `"$" + name + "$"`, and no unnamed quote closes on it again. */
  ghost predicate OpensQuote(line: string, pre: string, name: string, post: string) {
    && line == pre + ("$" + name + "$") + post && NoDollar(pre) && NoDollar(name)
    && (name == "" ==> !Has(post, "$$"))
    && !Comment(line)
  }

  lemma TagOpens(pre: string, name: string, post: string)
    requires NoDollar(pre) && NoDollar(name) && (name == "" ==> !Has(post, "$$"))
    ensures Opens(pre + ("$" + name + "$") + post) == Some("$" + name + "$")
  {
    if name == "" {
      assert "$" + name + "$" == "$$";
      TwoDollars(pre, post);
    } else {
      NamedQuote(pre, name, post);
      assert pre + ("$" + name + "$") + post == pre + "$" + (name + "$" + post);
    }
  }

  lemma QuoteOpens(line: string, pre: string, name: string, post: string)
    requires OpensQuote(line, pre, name, post)
    ensures !Dropped(None, line) && AfterLine(None, line) == Some("$" + name + "$")
  {
    var left, right := TrimAround(pre, "$" + name + "$", post);
    assert forall c | c in left :: c in pre;
    if Has(right, "$$") {
      HasInPrefix(post, |right|, "$$");
    }
    TagOpens(left, name, right);
  }

  lemma WithinQuote(tag: string, line: string)
    requires Dollars(tag)
    ensures !Dropped(Some(tag), line)
    ensures AfterLine(Some(tag), line) == if Has(line, tag) then None else Some(tag)
  {
    ContainsIsHas(TrimSpace(line), tag);
    TrimKeepsTag(line, tag);
  }

  lemma TrimmedOpensNothing(line: string)
    requires NoDollar(line)
    ensures Opens(TrimSpace(line)) == None
  {
    var a, b := TrimmedBoth(line);
    forall c | c in TrimSpace(line)
      ensures c != '$'
    {
      assert c in a + TrimSpace(line) + b;
    }
    NoDollarOpensNothing(TrimSpace(line));
  }

  /** No quote is ever open in lines without dollars. */
  lemma {:induction false} NoDollarsNoQuote(lines: seq<string>)
    requires forall line | line in lines :: NoDollar(line)
    ensures OpenAfter(lines) == None
  {
    if lines != [] {
      var line := lines[|lines| - 1];
      NoDollarsNoQuote(lines[..|lines| - 1]);
      TrimmedOpensNothing(line);
    }
  }

  // ---- blocks ----

  lemma ScanOne(lines: seq<string>, line: string)
    ensures Scanned(lines + [line]) == Step(Scanned(lines), line)
  {
    assert (lines + [line])[..|lines|] == lines;
  }

  lemma ScanOpen(lines: seq<string>)
    ensures Scanned(lines).open == OpenAfter(lines)
  {
    ScanKeepsInv(lines);
  }

  /** Scanning lines without the open tag only collects them. */
  lemma {:induction false} ScanInner(before: seq<string>, inner: seq<string>, tag: string)
    requires Dollars(tag) && Scanned(before).open == Some(tag)
    requires forall line | line in inner :: !Has(line, tag)
    ensures var s := Scanned(before); Scanned(before + inner) == Scan(Some(tag), s.current + inner, s.pieces)
  {
    var s := Scanned(before);
    if inner == [] {
      assert before + inner == before && s.current + inner == s.current;
    } else {
      var front, line := inner[..|inner| - 1], inner[|inner| - 1];
      ScanInner(before, front, tag);
      ScanOne(before + front, line);
      WithinQuote(tag, line);
      Associate(before, front, [line]);
      Associate(s.current, front, [line]);
      assert front + [line] == inner;
    }
  }

  function Block(open: string, inner: seq<string>, close: string): seq<string> {
    [open] + inner + [close]
  }

  lemma ScanBlock(before: seq<string>, open: string, inner: seq<string>, close: string, tag: string)
    requires Dollars(tag) && OpenAfter(before) == None
    requires !Dropped(None, open) && AfterLine(None, open) == Some(tag)
    requires Has(close, tag) && forall line | line in inner :: !Has(line, tag)
    ensures var s, piece := Scanned(before), Scanned(before).current + Block(open, inner, close);
      Scanned(before + Block(open, inner, close)) ==
      if EndsCommand(TrimSpace(close)) then Scan(None, [], s.pieces + [piece]) else Scan(None, piece, s.pieces)
  {
    var s := Scanned(before);
    ScanOpen(before);
    ScanOne(before, open);
    ScanInner(before + [open], inner, tag);
    BlockApart(before, open, inner, close);
    BlockApart(s.current, open, inner, close);
    ScanOne(before + [open] + inner, close);
    WithinQuote(tag, close);
  }

  lemma BlockApart(a: seq<string>, open: string, inner: seq<string>, close: string)
    ensures a + Block(open, inner, close) == a + [open] + inner + [close]
  {
  }

  /** Further lines leave the finished pieces and only lengthen the current one. */
  predicate Grown(s: Scan, t: Scan) {
    && s.pieces <= t.pieces
    && if |s.pieces| == |t.pieces| then s.current <= t.current else s.current <= t.pieces[|s.pieces|]
  }

  /** The scans after each number of lines. */
  predicate Scans(scans: seq<Scan>, lines: seq<string>) {
    |scans| == |lines| + 1 && forall i | 0 <= i < |lines| :: scans[i + 1] == Step(scans[i], lines[i])
  }

  lemma {:induction false} ScanGrows(scans: seq<Scan>, lines: seq<string>, m: nat, n: nat)
    requires Scans(scans, lines) && m <= n <= |lines|
    ensures Grown(scans[m], scans[n])
  {
    if m < n {
      ScanGrows(scans, lines, m, n - 1);
      StepGrows(scans[m], scans[n - 1], lines[n - 1]);
    }
  }

  lemma ScansOf(lines: seq<string>) returns (scans: seq<Scan>)
    ensures Scans(scans, lines) && forall i | 0 <= i <= |lines| :: scans[i] == Scanned(lines[..i])
  {
    scans := seq(|lines| + 1, i requires 0 <= i <= |lines| => Scanned(lines[..i]));
    forall i | 0 <= i < |lines|
      ensures scans[i + 1] == Step(scans[i], lines[i])
    {
      ScannedStep(lines, i);
    }
  }

  lemma StepGrows(s: Scan, t: Scan, line: string)
    requires Grown(s, t)
    ensures Grown(s, Step(t, line))
  {
  }

  /** A piece that is finished or begun is, or begins, a piece in the end. */
  lemma PieceStays(before: seq<string>, after: seq<string>) returns (more: seq<string>)
    ensures var s, all := Scanned(before), AllPieces(before + after);
      && s.pieces <= all
      && (s.current != [] ==> |s.pieces| < |all| && all[|s.pieces|] == s.current + more)
  {
    var lines := before + after;
    assert lines[..|before|] == before && lines[..|lines|] == lines;
    var scans := ScansOf(lines);
    ScanGrows(scans, lines, |before|, |lines|);
    var s, t := Scanned(before), Scanned(before + after);
    var whole := if |s.pieces| == |t.pieces| then t.current else t.pieces[|s.pieces|];
    more := whole[|s.current|..];
    assert whole == s.current + more;
  }

  lemma FirstLine(lines: seq<string>, rest: string)
    requires lines != []
    ensures Text(lines) + rest == lines[0] + "\n" + (Text(lines[1..]) + rest)
  {
  }

  lemma {:induction false} SplitMore(lines: seq<string>, rest: string)
    requires forall line | line in lines :: '\n' !in line
    ensures SplitLines(Text(lines) + rest) == lines + SplitLines(rest)
  {
    if lines == [] {
      assert Text(lines) + rest == rest;
    } else {
      SplitMore(lines[1..], rest);
      SplitFirstLine(lines[0], Text(lines[1..]) + rest);
      FirstLine(lines, rest);
      Associate([lines[0]], lines[1..], SplitLines(rest));
      assert [lines[0]] + lines[1..] == lines;
    }
  }

  /** The last of the lines ended a command outside quotes, or there is none. */
  predicate AtStart(before: seq<string>) {
    before == [] || (Semicolon(before[|before| - 1]) && !Comment(before[|before| - 1]))
  }

  lemma StartsAfresh(before: seq<string>)
    requires OpenAfter(before) == None && AtStart(before)
    ensures Scanned(before).current == []
  {
    if before != [] {
      ScanOpen(before[..|before| - 1]);
    }
  }

  /**
    A dollar-quoted block met outside quotes, from its opening line to the first line with its tag,
    lies in one piece whatever its lines are; the quote is shut after it. The piece ends with the block
    if its last line ends a command, and begins with it if the line before it did.
   */
  lemma BlockStaysWhole(before: seq<string>, open: string, pre: string, name: string, post: string,
                        inner: seq<string>, close: string, rest: string)
    returns (k: nat, a: string, b: string)
    requires OpenAfter(before) == None && OpensQuote(open, pre, name, post)
    requires Has(close, "$" + name + "$") && forall line | line in inner :: !Has(line, "$" + name + "$")
    requires forall line | line in before + Block(open, inner, close) :: '\n' !in line
    ensures var block := Block(open, inner, close);
      && var pieces := Statements(Text(before + block) + rest);
      && k < |pieces| && pieces[k] == a + Text(block) + b
      && OpenAfter(before + block) == None
    ensures AtStart(before) ==> a == ""
    ensures Semicolon(close) ==> b == ""
  {
    var block, tag := Block(open, inner, close), "$" + name + "$";
    var s, lines := Scanned(before), before + block;
    QuoteOpens(open, pre, name, post);
    ScanBlock(before, open, inner, close, tag);
    ScanOpen(lines);
    SplitMore(lines, rest);
    var more := PieceStays(lines, SplitLines(rest));
    if EndsCommand(TrimSpace(close)) {
      more := [];
    }
    k, a, b := |s.pieces|, Text(s.current), Text(more);
    assert AllPieces(lines + SplitLines(rest))[k] == s.current + block + more;
    TextAppend(s.current, block);
    TextAppend(s.current + block, more);
    if AtStart(before) {
      StartsAfresh(before);
    }
  }

  // ---- scripts without dollars ----

  lemma KeptOne(lines: seq<string>, line: string)
    requires OpenAfter(lines) == None
    ensures Kept(lines + [line]) == if Comment(line) then Kept(lines) else Kept(lines) + [line]
  {
    assert (lines + [line])[..|lines|] == lines;
  }

  /** `kept` are the lines that are no comments, in order: `at` are their places. */
  predicate Selects(at: seq<nat>, kept: seq<string>, lines: seq<string>) {
    && |at| == |kept|
    && (forall i | 0 <= i < |at| :: at[i] < |lines| && kept[i] == lines[at[i]])
    && (forall i, j | 0 <= i < j < |at| :: at[i] < at[j])
    && (forall k | 0 <= k < |lines| :: k in at <==> !Comment(lines[k]))
  }

  lemma SelectsOne(at: seq<nat>, kept: seq<string>, lines: seq<string>, line: string)
    requires Selects(at, kept, lines)
    ensures Comment(line) ==> Selects(at, kept, lines + [line])
    ensures !Comment(line) ==> Selects(at + [|lines|], kept + [line], lines + [line])
  {
    var longer := at + [|lines|];
    assert forall k | k != |lines| :: k in longer <==> k in at;
    assert longer[|at|] == |lines|;
  }

  lemma {:induction false} NoDollarsKept(lines: seq<string>) returns (at: seq<nat>)
    requires forall line | line in lines :: NoDollar(line)
    ensures Selects(at, Kept(lines), lines)
  {
    if lines == [] {
      return [];
    }
    var front, line := lines[..|lines| - 1], lines[|lines| - 1];
    assert lines == front + [line];
    at := NoDollarsKept(front);
    assert Kept(lines) == if Comment(line) then Kept(front) else Kept(front) + [line] by {
      NoDollarsNoQuote(front);
      KeptOne(front, line);
    }
    SelectsOne(at, Kept(front), front, line);
    if !Comment(line) {
      at := at + [|front|];
    }
  }

  /**
    Without dollars the pieces are the lines that are no comments, cut after each line that ends in a
    semicolon and nowhere else.
   */
  lemma PlainScript(lines: seq<string>, k: nat, j: nat)
    requires forall line | line in lines :: NoDollar(line)
    requires k < |AllPieces(lines)| && j < |AllPieces(lines)[k]|
    ensures var pieces := AllPieces(lines);
      && (j < |pieces[k]| - 1 ==> !Semicolon(pieces[k][j]))
      && (j == |pieces[k]| - 1 && k < |pieces| - 1 ==> Semicolon(pieces[k][j]))
  {
    var piece := AllPieces(lines)[k];
    CutsExactly(lines, k);
    AllPiecesFlatten(lines);
    PieceInFlat(AllPieces(lines), k);
    var _ := NoDollarsKept(lines);
    forall line | line in piece
      ensures NoDollar(line)
    {
      assert line in Kept(lines);
    }
    NoDollarsNoQuote(piece[..j + 1]);
    assert CutAfter(piece, j + 1) <==> EndsCommand(TrimSpace(piece[j]));
  }
}
