/** The splitter of migration scripts, internal/db/migrate.go: a line scanner that knows dollar quotes. */
module Splitter {
  import opened Base

  // ---- the string library ----

  predicate IsSpace(c: char) {
    || c in "\t\n\r " || c == '\U{000B}' || c == '\U{000C}' || c == '\U{0085}' || c == '\U{00A0}' || c == '\U{1680}'
    || '\U{2000}' <= c <= '\U{200A}' || c == '\U{2028}' || c == '\U{2029}' || c == '\U{202F}'
    || c == '\U{205F}' || c == '\U{3000}'
  }

  function TrimLeft(s: string): string {
    if s != "" && IsSpace(s[0]) then TrimLeft(s[1..]) else s
  }

  function TrimRight(s: string): string {
    if s != "" && IsSpace(s[|s| - 1]) then TrimRight(s[..|s| - 1]) else s
  }

  function TrimSpace(s: string): string {
    TrimRight(TrimLeft(s))
  }

  predicate At(s: string, sub: string, i: int) {
    0 <= i <= i + |sub| <= |s| && s[i..i + |sub|] == sub
  }

  /** The first place at or after `i` where `sub` occurs. */
  function IndexFrom(s: string, sub: string, i: nat): (r: Option<nat>)
    ensures r.Some? ==> r.value >= i && At(s, sub, r.value)
    ensures forall j | i <= j < (if r.Some? then r.value else |s| + 1) :: !At(s, sub, j)
    decreases |s| - i
  {
    if At(s, sub, i) then Some(i) else if i >= |s| then None else IndexFrom(s, sub, i + 1)
  }

  function Index(s: string, sub: string): Option<nat> {
    IndexFrom(s, sub, 0)
  }

  predicate Contains(s: string, sub: string) {
    Index(s, sub).Some?
  }

  function SplitLines(s: string): (lines: seq<string>)
    ensures lines != []
    ensures forall line | line in lines :: '\n' !in line
  {
    if s == "" then [""]
    else
      var rest := SplitLines(s[1..]);
      if s[0] == '\n' then [""] + rest else [[s[0]] + rest[0]] + rest[1..]
  }

  // ---- the scanner ----

  predicate IsComment(trimmed: string) {
    "--" <= trimmed || "/*" <= trimmed
  }

  predicate EndsCommand(trimmed: string) {
    trimmed != "" && trimmed[|trimmed| - 1] == ';'
  }

  /** The tag a line opens outside a dollar quote, if it opens one. */
  function Opens(trimmed: string): Option<string> {
    var at := Index(trimmed, "$");
    if at == None then None
    else
      var rest := trimmed[at.value..];
      if "$$" <= rest then
        if Contains(rest[2..], "$$") then None else Some("$$")
      else
        var end := Index(rest[1..], "$");
        if end == None then None else Some(rest[..end.value + 2])
  }

  function AfterLine(open: Option<string>, line: string): Option<string> {
    if open == None then Opens(TrimSpace(line))
    else if Contains(TrimSpace(line), open.value) then None
    else open
  }

  predicate Dropped(open: Option<string>, line: string) {
    open == None && IsComment(TrimSpace(line))
  }

  /** The dollar tag open after `lines`. */
  function OpenAfter(lines: seq<string>): Option<string> {
    if lines == [] then None
    else
      var open, line := OpenAfter(lines[..|lines| - 1]), lines[|lines| - 1];
      if Dropped(open, line) then open else AfterLine(open, line)
  }

  /** `lines` without the comment lines met outside dollar quotes. */
  function Kept(lines: seq<string>): seq<string> {
    if lines == [] then []
    else
      var front, line := lines[..|lines| - 1], lines[|lines| - 1];
      if Dropped(OpenAfter(front), line) then Kept(front) else Kept(front) + [line]
  }

  /** What the scanner holds after some lines: finished pieces, and the lines of the current one. */
  datatype Scan = Scan(open: Option<string>, current: seq<string>, pieces: seq<seq<string>>)

  function Step(s: Scan, line: string): Scan {
    if Dropped(s.open, line) then s
    else
      var open, current := AfterLine(s.open, line), s.current + [line];
      if open == None && EndsCommand(TrimSpace(line)) then Scan(None, [], s.pieces + [current])
      else Scan(open, current, s.pieces)
  }

  function Scanned(lines: seq<string>): Scan {
    if lines == [] then Scan(None, [], []) else Step(Scanned(lines[..|lines| - 1]), lines[|lines| - 1])
  }

  /** Lines back to text, each ended by a newline. */
  function Text(lines: seq<string>): (s: string)
    ensures s == "" <==> lines == []
  {
    if lines == [] then "" else lines[0] + "\n" + Text(lines[1..])
  }

  function Texts(pieces: seq<seq<string>>): (r: seq<string>)
    ensures |r| == |pieces|
    ensures forall k | 0 <= k < |r| :: r[k] == Text(pieces[k])
  {
    seq(|pieces|, k requires 0 <= k < |pieces| => Text(pieces[k]))
  }

  function AllPieces(lines: seq<string>): seq<seq<string>> {
    var s := Scanned(lines);
    s.pieces + (if s.current == [] then [] else [s.current])
  }

  function Statements(content: string): seq<string> {
    Texts(AllPieces(SplitLines(content)))
  }

  method SplitStatements(content: string) returns (statements: seq<string>)
    ensures statements == Statements(content)
  {
    statements := [];
    var current, inDollar, dollarTag := "", false, "";
    var lines := SplitLines(content);
    for i := 0 to |lines|
      invariant Shows(Scanned(lines[..i]), statements, current, inDollar, dollarTag)
    {
      ScannedStep(lines, i);
      var trimmed := TrimSpace(lines[i]);
      if inDollar || !IsComment(trimmed) {
        statements, current, inDollar, dollarTag :=
          TakeLine(Scanned(lines[..i]), lines[i], trimmed, statements, current, inDollar, dollarTag);
      }
    }
    assert lines[..|lines|] == lines;
    if |current| > 0 {
      statements := statements + [current];
    }
    LastPiece(lines, statements);
  }

  lemma ScannedStep(lines: seq<string>, i: nat)
    requires i < |lines|
    ensures Scanned(lines[..i + 1]) == Step(Scanned(lines[..i]), lines[i])
  {
    assert lines[..i + 1][..i] == lines[..i];
  }

  lemma LastPiece(lines: seq<string>, statements: seq<string>)
    requires var s := Scanned(lines);
      statements == Texts(s.pieces) + (if s.current == [] then [] else [Text(s.current)])
    ensures statements == Texts(AllPieces(lines))
  {
  }

  /** A line that is kept: the rest of the loop body. */
  method TakeLine(ghost scan: Scan, line: string, trimmed: string, statements0: seq<string>, current0: string,
                  inDollar0: bool, dollarTag0: string)
    returns (statements: seq<string>, current: string, inDollar: bool, dollarTag: string)
    requires trimmed == TrimSpace(line) && !Dropped(scan.open, line)
    requires Shows(scan, statements0, current0, inDollar0, dollarTag0)
    ensures Shows(Step(scan, line), statements, current, inDollar, dollarTag)
  {
    ScanLine(scan, line, statements0, current0);
    statements, current := statements0, current0 + line + "\n";
    inDollar, dollarTag := ScanDollar(inDollar0, dollarTag0, trimmed, line);
    if !inDollar && EndsCommand(trimmed) {
      statements := statements + [current];
      current := "";
    }
  }

  /** The loop's variables hold the scan. */
  predicate Shows(s: Scan, statements: seq<string>, current: string, inDollar: bool, dollarTag: string) {
    && ShowsText(s, statements, current)
    && s.open == if inDollar then Some(dollarTag) else None
  }

  predicate ShowsText(s: Scan, statements: seq<string>, current: string) {
    statements == Texts(s.pieces) && current == Text(s.current)
  }

  lemma ScanLine(s: Scan, line: string, statements: seq<string>, current: string)
    requires ShowsText(s, statements, current) && !Dropped(s.open, line)
    ensures var longer := current + line + "\n";
      if AfterLine(s.open, line) == None && EndsCommand(TrimSpace(line))
      then ShowsText(Step(s, line), statements + [longer], "")
      else ShowsText(Step(s, line), statements, longer)
  {
    TextAppend(s.current, [line]);
    assert Text([line]) == line + "\n";
    assert current + (line + "\n") == current + line + "\n";
  }

  /** The dollar-quote part of the loop body. */
  method ScanDollar(inDollar: bool, dollarTag: string, trimmed: string, line: string)
    returns (inside: bool, tag: string)
    requires trimmed == TrimSpace(line)
    ensures (if inside then Some(tag) else None) == AfterLine(if inDollar then Some(dollarTag) else None, line)
  {
    inside, tag := inDollar, dollarTag;
    if !inDollar {
      var at := Index(trimmed, "$");
      if at.Some? {
        var rest := trimmed[at.value..];
        if "$$" <= rest {
          if !Contains(rest[2..], "$$") {
            inside, tag := true, "$$";
          }
        } else {
          var end := Index(rest[1..], "$");
          if end.Some? {
            inside, tag := true, rest[..end.value + 2];
          }
        }
      }
    } else if Contains(trimmed, dollarTag) {
      inside, tag := false, "";
    }
  }

  // ---- text and lines ----

  lemma {:induction false} TextAppend(a: seq<string>, b: seq<string>)
    ensures Text(a + b) == Text(a) + Text(b)
  {
    if a == [] {
      assert a + b == b;
    } else {
      assert (a + b)[1..] == a[1..] + b;
      TextAppend(a[1..], b);
    }
  }

  lemma {:induction false} SplitFirstLine(line: string, rest: string)
    requires '\n' !in line
    ensures SplitLines(line + "\n" + rest) == [line] + SplitLines(rest)
  {
    var s := line + "\n" + rest;
    if line == "" {
      assert s[1..] == rest;
    } else {
      assert s[1..] == line[1..] + "\n" + rest;
      SplitFirstLine(line[1..], rest);
      assert [line[0]] + line[1..] == line;
    }
  }

  /** Splitting a text of whole lines gives the lines back, and an empty one after the last newline. */
  lemma {:induction false} SplitText(lines: seq<string>)
    requires forall line | line in lines :: '\n' !in line
    ensures SplitLines(Text(lines)) == lines + [""]
  {
    if lines != [] {
      SplitText(lines[1..]);
      SplitFirstLine(lines[0], Text(lines[1..]));
      assert [lines[0]] + (lines[1..] + [""]) == lines + [""];
    }
  }

  lemma {:induction false} TextOfSplit(s: string)
    ensures Text(SplitLines(s)) == s + "\n"
  {
    if s != "" {
      TextOfSplit(s[1..]);
      var rest := SplitLines(s[1..]);
      if s[0] == '\n' {
        assert ([""] + rest)[1..] == rest;
        assert "" + "\n" + Text(rest) == s + "\n";
      } else {
        assert ([[s[0]] + rest[0]] + rest[1..])[1..] == rest[1..];
        assert [s[0]] + rest[0] + "\n" + Text(rest[1..]) == [s[0]] + Text(rest);
      }
    }
  }

  // ---- what the scanner keeps ----

  function Flatten(pieces: seq<seq<string>>): seq<string> {
    if pieces == [] then [] else Flatten(pieces[..|pieces| - 1]) + pieces[|pieces| - 1]
  }

  /** A cut may fall after `lines[j - 1]`: no tag is open and the line ends a command. */
  predicate CutAfter(lines: seq<string>, j: nat)
    requires 0 < j <= |lines|
  {
    OpenAfter(lines[..j]) == None && EndsCommand(TrimSpace(lines[j - 1]))
  }

  /** Up to `n`, no line of the piece is one to cut after. */
  predicate Uncut(piece: seq<string>, n: nat)
    requires n <= |piece|
  {
    forall j | 0 < j <= n :: !CutAfter(piece, j)
  }

  predicate ClosedPiece(piece: seq<string>) {
    && piece != [] && CutAfter(piece, |piece|) && Uncut(piece, |piece| - 1)
    && Kept(piece) == piece && Scanned(piece) == Scan(None, [], [piece])
  }

  predicate OpenPiece(piece: seq<string>, open: Option<string>) {
    && Uncut(piece, |piece|) && OpenAfter(piece) == open
    && Kept(piece) == piece && Scanned(piece) == Scan(open, piece, [])
  }

  ghost predicate ScanInv(s: Scan, lines: seq<string>) {
    && s.open == OpenAfter(lines)
    && Flatten(s.pieces) + s.current == Kept(lines)
    && AllClosed(s.pieces)
    && OpenPiece(s.current, s.open)
  }

  predicate AllClosed(pieces: seq<seq<string>>) {
    forall k | 0 <= k < |pieces| :: ClosedPiece(pieces[k])
  }

  lemma UncutExtends(piece: seq<string>, line: string)
    requires Uncut(piece, |piece|)
    ensures Uncut(piece + [line], |piece|)
  {
    forall j | 0 < j <= |piece|
      ensures !CutAfter(piece + [line], j)
    {
      assert (piece + [line])[..j] == piece[..j];
      assert !CutAfter(piece, j);
    }
  }

  lemma {:induction false} PieceGrows(piece: seq<string>, open: Option<string>, line: string)
    requires OpenPiece(piece, open) && !Dropped(open, line)
    ensures var longer, after := piece + [line], AfterLine(open, line);
      if after == None && EndsCommand(TrimSpace(line)) then ClosedPiece(longer) else OpenPiece(longer, after)
  {
    var longer := piece + [line];
    assert longer[..|piece|] == piece && longer[..|longer|] == longer;
    LongerScan(piece, open, line);
    UncutExtends(piece, line);
  }

  lemma LongerScan(piece: seq<string>, open: Option<string>, line: string)
    requires OpenPiece(piece, open) && !Dropped(open, line)
    ensures var longer := piece + [line];
      && OpenAfter(longer) == AfterLine(open, line) && Kept(longer) == longer
      && Scanned(longer) == Step(Scan(open, piece, []), line)
  {
    assert (piece + [line])[..|piece|] == piece;
  }

  lemma Associate(a: seq<string>, b: seq<string>, c: seq<string>)
    ensures a + b + c == a + (b + c)
  {
  }

  lemma FlattenAppend(pieces: seq<seq<string>>, piece: seq<string>)
    ensures Flatten(pieces + [piece]) == Flatten(pieces) + piece
  {
    assert (pieces + [piece])[..|pieces|] == pieces;
  }

  lemma {:induction false} StepKeepsInv(s: Scan, lines: seq<string>, line: string)
    requires ScanInv(s, lines)
    ensures ScanInv(Step(s, line), lines + [line])
  {
    assert (lines + [line])[..|lines|] == lines;
    if !Dropped(s.open, line) {
      PieceGrows(s.current, s.open, line);
      FlattenAppend(s.pieces, s.current + [line]);
      Associate(Flatten(s.pieces), s.current, [line]);
    }
  }

  lemma {:induction false} ScanKeepsInv(lines: seq<string>)
    ensures ScanInv(Scanned(lines), lines)
  {
    if lines == [] {
      assert Flatten([]) + [] == Kept([]);
    } else {
      var front, line := lines[..|lines| - 1], lines[|lines| - 1];
      ScanKeepsInv(front);
      var s := Scanned(front);
      StepKeepsInv(s, front, line);
      assert Scanned(lines) == Step(s, line);
      assert front + [line] == lines;
    }
  }

  lemma {:induction false} FlattenText(pieces: seq<seq<string>>)
    ensures Joined(Texts(pieces)) == Text(Flatten(pieces))
  {
    if pieces != [] {
      var front := pieces[..|pieces| - 1];
      FlattenText(front);
      assert Texts(pieces)[..|front|] == Texts(front);
      TextAppend(Flatten(front), pieces[|pieces| - 1]);
    }
  }

  function Joined(texts: seq<string>): string {
    if texts == [] then "" else Joined(texts[..|texts| - 1]) + texts[|texts| - 1]
  }

  lemma AllPiecesFlatten(lines: seq<string>)
    ensures Flatten(AllPieces(lines)) == Kept(lines)
  {
    var s := Scanned(lines);
    assert Flatten(s.pieces) + s.current == Kept(lines) by {
      ScanKeepsInv(lines);
    }
    if s.current == [] {
      assert AllPieces(lines) == s.pieces;
    } else {
      FlattenAppend(s.pieces, s.current);
    }
  }

  /**
    Put together, the pieces are the input's lines, newline-ended, less the comment lines met
    outside dollar quotes.
   */
  lemma {:induction false} KeepsEveryLine(content: string)
    ensures Joined(Statements(content)) == Text(Kept(SplitLines(content)))
    ensures Kept(SplitLines(content)) == SplitLines(content) ==> Joined(Statements(content)) == content + "\n"
  {
    var lines := SplitLines(content);
    FlattenText(AllPieces(lines));
    AllPiecesFlatten(lines);
    TextOfSplit(content);
  }

  /**
    Cuts fall exactly where no dollar tag is open and the line ends in a semicolon: every
    piece stops at its first such line, and only the last piece may have none.
   */
  lemma CutsExactly(lines: seq<string>, k: nat)
    requires k < |AllPieces(lines)|
    ensures var piece := AllPieces(lines)[k];
      && piece != [] && Kept(piece) == piece && Uncut(piece, |piece| - 1)
      && (CutAfter(piece, |piece|) || (k == |AllPieces(lines)| - 1 && OpenAfter(piece) == OpenAfter(lines)))
  {
    ScanKeepsInv(lines);
  }

  lemma {:induction false} NoNewlineKept(lines: seq<string>)
    requires forall line | line in lines :: '\n' !in line
    ensures forall line | line in Kept(lines) :: '\n' !in line
  {
    if lines != [] {
      NoNewlineKept(lines[..|lines| - 1]);
    }
  }

  lemma {:induction false} PieceInFlat(pieces: seq<seq<string>>, k: nat)
    requires k < |pieces|
    ensures forall line | line in pieces[k] :: line in Flatten(pieces)
  {
    if k < |pieces| - 1 {
      PieceInFlat(pieces[..|pieces| - 1], k);
    }
  }

  lemma BlankLine(open: Option<string>)
    requires open.Some? ==> open.value != ""
    ensures TrimSpace("") == "" && !Dropped(open, "") && AfterLine(open, "") == open
  {
  }

  lemma {:induction false} TagsAreNotEmpty(lines: seq<string>)
    ensures OpenAfter(lines).Some? ==> OpenAfter(lines).value != ""
  {
    if lines != [] {
      TagsAreNotEmpty(lines[..|lines| - 1]);
    }
  }

  /** Scanning a piece and the blank line after it. */
  lemma {:induction false} PieceThenBlank(piece: seq<string>)
    requires ClosedPiece(piece) || (piece != [] && OpenPiece(piece, OpenAfter(piece)))
    ensures AllPieces(piece + [""]) == if ClosedPiece(piece) then [piece, [""]] else [piece + [""]]
  {
    assert (piece + [""])[..|piece|] == piece;
    TagsAreNotEmpty(piece);
    BlankLine(OpenAfter(piece));
    assert [] + [""] == [""];
  }

  lemma PieceLines(lines: seq<string>, k: nat)
    requires k < |AllPieces(lines)| && forall line | line in lines :: '\n' !in line
    ensures forall line | line in AllPieces(lines)[k] :: '\n' !in line
  {
    AllPiecesFlatten(lines);
    NoNewlineKept(lines);
    PieceInFlat(AllPieces(lines), k);
  }

  lemma PieceKinds(lines: seq<string>, k: nat)
    requires k < |AllPieces(lines)|
    ensures var piece := AllPieces(lines)[k];
      || ClosedPiece(piece)
      || (k == |AllPieces(lines)| - 1 && piece != [] && OpenPiece(piece, OpenAfter(piece)))
  {
    ScanKeepsInv(lines);
  }

  lemma BlankText(piece: seq<string>)
    ensures Texts([piece, [""]]) == [Text(piece), "\n"]
    ensures Texts([piece + [""]]) == [Text(piece) + "\n"]
  {
    TextAppend(piece, [""]);
    assert Text([""]) == "\n";
  }

  lemma {:induction false} ResplitPiece(piece: seq<string>)
    requires ClosedPiece(piece) || (piece != [] && OpenPiece(piece, OpenAfter(piece)))
    requires forall line | line in piece :: '\n' !in line
    ensures Statements(Text(piece)) == if ClosedPiece(piece) then [Text(piece), "\n"] else [Text(piece) + "\n"]
  {
    var pieces := AllPieces(piece + [""]);
    assert pieces == if ClosedPiece(piece) then [piece, [""]] else [piece + [""]] by {
      PieceThenBlank(piece);
    }
    assert Statements(Text(piece)) == Texts(pieces) by {
      SplitText(piece);
    }
    BlankText(piece);
  }

  /** Splitting a piece again returns it whole: followed by a blank piece if it was closed, by a blank line if not. */
  lemma ResplitsWhole(content: string, k: nat)
    requires k < |Statements(content)|
    ensures var piece := Statements(content)[k];
      Statements(piece) == if ClosedPiece(AllPieces(SplitLines(content))[k]) then [piece, "\n"] else [piece + "\n"]
    ensures k < |Statements(content)| - 1 ==> ClosedPiece(AllPieces(SplitLines(content))[k])
  {
    var piece := AllPieces(SplitLines(content))[k];
    PieceKinds(SplitLines(content), k);
    PieceLines(SplitLines(content), k);
    ResplitPiece(piece);
  }

  // ---- quotes that open and close on one line ----

  predicate NoDollar(s: string) {
    '$' !in s
  }

  lemma FirstDollar(pre: string, rest: string)
    requires NoDollar(pre)
    ensures Index(pre + "$" + rest, "$") == Some(|pre|)
  {
    var s := pre + "$" + rest;
    assert At(s, "$", |pre|);
    forall j | 0 <= j < |pre|
      ensures !At(s, "$", j)
    {
      assert s[j] == pre[j];
      assert s[j..j + 1] == [pre[j]];
    }
  }

  lemma UnnamedQuote(pre: string, body: string, post: string)
    requires NoDollar(pre) && NoDollar(body)
    ensures Opens(pre + "$" + ("$" + body + "$$" + post)) == None
  {
    var line := pre + "$" + ("$" + body + "$$" + post);
    FirstDollar(pre, "$" + body + "$$" + post);
    assert line[|pre|..] == "$$" + body + "$$" + post;
    assert line[|pre|..][2..] == body + "$$" + post;
    assert At(body + "$$" + post, "$$", |body|);
  }

  lemma NamedQuote(pre: string, name: string, rest: string)
    requires NoDollar(pre) && NoDollar(name) && name != ""
    ensures Opens(pre + "$" + (name + "$" + rest)) == Some("$" + name + "$")
  {
    var tail := name + "$" + rest;
    var line := pre + "$" + tail;
    FirstDollar(pre, tail);
    FirstDollar(name, rest);
    assert line[|pre|..] == "$" + tail;
    assert line[|pre|..][1..] == tail && tail[0] == name[0];
    assert ("$" + tail)[..|name| + 2] == "$" + name + "$";
  }

  /** A quote that opens and closes on one line is seen to close only when its tag has no name. */
  lemma OneLineQuoteClosesIffUnnamed(pre: string, name: string, body: string, post: string)
    requires NoDollar(pre) && NoDollar(name) && NoDollar(body)
    ensures var tag := "$" + name + "$"; Opens(pre + tag + body + tag + post) == if name == "" then None else Some(tag)
  {
    Regroup(pre, name, body, post);
    if name == "" {
      UnnamedQuote(pre, body, post);
    } else {
      NamedQuote(pre, name, body + ("$" + name + "$") + post);
    }
  }

  lemma Regroup(pre: string, name: string, body: string, post: string)
    ensures var tag := "$" + name + "$"; pre + tag + body + tag + post == pre + "$" + (name + "$" + (body + tag + post))
    ensures name == "" ==> name + "$" + (body + ("$" + name + "$") + post) == "$" + body + "$$" + post
  {
    var tag := "$" + name + "$";
    var tail := body + tag + post;
    assert pre + tag + body + tag + post == pre + tag + tail;
    assert pre + tag + tail == pre + "$" + (name + "$" + tail);
    assert name == "" ==> tag == "$$";
    assert name == "" ==> name + "$" + tail == "$" + tail;
  }
}
