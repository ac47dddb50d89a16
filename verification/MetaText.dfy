/** The text of a version's metadata file: the previous version on its first line, the next one on its second. */
module MetaText {
  import opened Prelude

  const NULL := "NULL"

  /** Text that a CID can have: in one piece, usable in a file name, and not the marker for "none". */
  predicate IsCid(s: string) {
    s != [] && s != NULL && forall i :: 0 <= i < |s| ==> !Space(s[i]) && s[i] != '/'
  }

  /** A metadata line as the program writes it. */
  predicate IsField(s: string) {
    s == NULL || IsCid(s)
  }

  predicate Space(c: char) {
    c == ' ' || c == '\t' || c == '\n' || c == '\r'
  }

  function TrimLeft(s: string): string {
    if s != [] && Space(s[0]) then TrimLeft(s[1..]) else s
  }

  function TrimRight(s: string): string {
    if s != [] && Space(s[|s| - 1]) then TrimRight(s[..|s| - 1]) else s
  }

  function TrimSpace(s: string): string {
    TrimRight(TrimLeft(s))
  }

  /** Every "\r\n" becomes "\n". */
  function UnixLines(s: string): string {
    if |s| >= 2 && s[0] == '\r' && s[1] == '\n' then ['\n'] + UnixLines(s[2..])
    else if s == [] then []
    else [s[0]] + UnixLines(s[1..])
  }

  function DropNewlines(s: string): string {
    if s != [] && s[|s| - 1] == '\n' then DropNewlines(s[..|s| - 1]) else s
  }

  function Split(s: string): (lines: seq<string>)
    ensures |lines| > 0
  {
    if s == [] then [[]]
    else
      var rest := Split(s[1..]);
      if s[0] == '\n' then [[]] + rest else [[s[0]] + rest[0]] + rest[1..]
  }

  function Join(lines: seq<string>): string
    requires |lines| > 0
  {
    if |lines| == 1 then lines[0] else lines[0] + "\n" + Join(lines[1..])
  }

  /** What the commands make of a file's content before looking at single lines. */
  function Lines(content: string): seq<string> {
    Split(DropNewlines(UnixLines(content)))
  }

  function Render(previous: string, next: string): string {
    previous + "\n" + next + "\n"
  }

  ghost predicate Plain(s: string) {
    forall i :: 0 <= i < |s| ==> s[i] != '\r'
  }

  lemma {:induction false} PlainIsUnix(s: string)
    requires Plain(s)
    ensures UnixLines(s) == s
    decreases |s|
  {
    if s != [] {
      PlainIsUnix(s[1..]);
      assert s == [s[0]] + s[1..];
    }
  }

  lemma {:induction false} UnixPair(rest: string)
    ensures UnixLines("\r\n" + rest) == "\n" + UnixLines(rest)
  {
    assert ("\r\n" + rest)[2..] == rest;
  }

  lemma {:induction false} UnixChar(c: char, rest: string)
    requires !(c == '\r' && rest != [] && rest[0] == '\n')
    ensures UnixLines([c] + rest) == [c] + UnixLines(rest)
  {
    assert ([c] + rest)[1..] == rest;
  }

  /** Texts are converted piece by piece, unless a line end is torn apart. */
  lemma {:induction false} UnixAppend(a: string, e: string)
    requires a != [] && e != [] && a[|a| - 1] == '\r' ==> e[0] != '\n'
    ensures UnixLines(a + e) == UnixLines(a) + UnixLines(e)
    decreases |a|
  {
    if a == [] {
      assert a + e == e;
    } else if |a| >= 2 && a[0] == '\r' && a[1] == '\n' {
      PairThen(a, e);
      UnixAppend(a[2..], e);
    } else {
      CharThen(a, e);
      UnixAppend(a[1..], e);
    }
  }

  lemma {:induction false} PairThen(a: string, e: string)
    requires |a| >= 2 && a[0] == '\r' && a[1] == '\n'
    ensures UnixLines(a + e) == "\n" + UnixLines(a[2..] + e) && UnixLines(a) == "\n" + UnixLines(a[2..])
  {
    assert a == "\r\n" + a[2..] && a + e == "\r\n" + (a[2..] + e);
    UnixPair(a[2..]);
    UnixPair(a[2..] + e);
  }

  lemma {:induction false} CharThen(a: string, e: string)
    requires a != [] && !(|a| >= 2 && a[0] == '\r' && a[1] == '\n') && (e != [] && a == ['\r'] ==> e[0] != '\n')
    ensures UnixLines(a + e) == [a[0]] + UnixLines(a[1..] + e) && UnixLines(a) == [a[0]] + UnixLines(a[1..])
  {
    assert a == [a[0]] + a[1..] && a + e == [a[0]] + (a[1..] + e);
    UnixChar(a[0], a[1..]);
    UnixChar(a[0], a[1..] + e);
  }

  /** A line end of the other kind becomes a plain one. */
  lemma {:induction false} UnixLineEnd(a: string, rest: string)
    requires Plain(a)
    ensures UnixLines(a + ("\r\n" + rest)) == a + ("\n" + UnixLines(rest))
  {
    UnixAppend(a, "\r\n" + rest);
    PlainIsUnix(a);
    UnixPair(rest);
  }

  lemma {:induction false} SplitField(a: string, rest: string)
    requires forall i :: 0 <= i < |a| ==> a[i] != '\n'
    ensures Split(a + "\n" + rest) == [a] + Split(rest)
    decreases |a|
  {
    var s := a + "\n" + rest;
    if a == [] {
      assert s == ['\n'] + rest && s[1..] == rest;
    } else {
      SplitField(a[1..], rest);
      assert s[1..] == a[1..] + "\n" + rest;
      assert [a[0]] + a[1..] == a;
    }
  }

  lemma {:induction false} SplitLast(a: string)
    requires forall i :: 0 <= i < |a| ==> a[i] != '\n'
    ensures Split(a) == [a]
    decreases |a|
  {
    if a != [] {
      SplitLast(a[1..]);
      assert [a[0]] + a[1..] == a;
    }
  }

  lemma FieldIsPlain(s: string)
    requires IsField(s)
    ensures s != [] && forall i :: 0 <= i < |s| ==> !Space(s[i])
    ensures TrimSpace(s) == s
  {
  }

  ghost predicate Blank(s: string) {
    forall i :: 0 <= i < |s| ==> Space(s[i])
  }

  /** Blanks around a field do not matter. */
  lemma {:induction false} PaddingGoes(before: string, field: string, after: string)
    requires IsField(field) && Blank(before) && Blank(after)
    ensures TrimSpace(before + (field + after)) == field
  {
    FieldIsPlain(field);
    LeftPadding(before, field + after);
    RightPadding(field, after);
  }

  lemma {:induction false} LeftPadding(before: string, s: string)
    requires Blank(before) && s != [] && !Space(s[0])
    ensures TrimLeft(before + s) == s
    decreases |before|
  {
    if before == [] {
      assert before + s == s;
    } else {
      assert (before + s)[1..] == before[1..] + s;
      LeftPadding(before[1..], s);
    }
  }

  lemma {:induction false} RightPadding(s: string, after: string)
    requires Blank(after) && s != [] && !Space(s[|s| - 1])
    ensures TrimRight(s + after) == s
    decreases |after|
  {
    if after == [] {
      assert s + after == s;
    } else {
      assert (s + after)[..|s + after| - 1] == s + after[..|after| - 1];
      RightPadding(s, after[..|after| - 1]);
    }
  }

  lemma TrailingNewlineGoes(body: string)
    requires body != [] && body[|body| - 1] != '\n'
    ensures DropNewlines(body + "\n") == body
  {
    assert (body + "\n")[..|body|] == body;
    assert DropNewlines(body) == body;
  }

  lemma TwoLinesSplit(a: string, b: string)
    requires (forall i :: 0 <= i < |a| ==> a[i] != '\n') && (forall i :: 0 <= i < |b| ==> b[i] != '\n')
    ensures Split(a + "\n" + b) == [a, b]
  {
    SplitField(a, b);
    SplitLast(b);
  }

  /** Reading back a written file gives its two fields, untouched by trimming. */
  lemma RenderParses(previous: string, next: string)
    requires IsField(previous) && IsField(next)
    ensures Lines(Render(previous, next)) == [previous, next]
    ensures TrimSpace(previous) == previous && TrimSpace(next) == next
  {
    FieldIsPlain(previous);
    FieldIsPlain(next);
    var body := previous + "\n" + next;
    PlainIsUnix(Render(previous, next));
    assert Render(previous, next) == body + "\n" && body[|body| - 1] == next[|next| - 1];
    TrailingNewlineGoes(body);
    TwoLinesSplit(previous, next);
  }

  /** A file whose line ends were converted is read the same. */
  lemma {:induction false} ConvertedParses(previous: string, next: string)
    requires IsField(previous) && IsField(next)
    ensures Lines(previous + "\r\n" + next + "\r\n") == [previous, next]
  {
    FieldIsPlain(previous);
    FieldIsPlain(next);
    ConvertedBack(previous, next);
    RenderParses(previous, next);
    PlainIsUnix(Render(previous, next));
  }

  lemma {:induction false} ConvertedBack(a: string, b: string)
    requires Plain(a) && Plain(b)
    ensures UnixLines(a + "\r\n" + b + "\r\n") == Render(a, b)
  {
    UnixLineEnd(b, "");
    UnixLineEnd(a, b + "\r\n");
    JoinedUp(a, b, "\r\n");
    JoinedUp(a, b, "\n");
    assert "\r\n" + "" == "\r\n" && "\n" + UnixLines("") == "\n";
  }

  lemma JoinedUp(a: string, b: string, end: string)
    ensures a + (end + (b + end)) == a + end + b + end
  {
  }

  /** Rewriting the second line of a written file writes the file anew. */
  lemma RewriteSecondLine(previous: string, next: string, newer: string)
    requires IsField(previous) && IsField(next)
    ensures |Lines(Render(previous, next))| == 2
    ensures Join(Lines(Render(previous, next))[1 := newer]) + "\n" == Render(previous, newer)
  {
    RenderParses(previous, next);
    var lines := [previous, newer];
    assert Lines(Render(previous, next))[1 := newer] == lines;
    assert lines[1..] == [newer];
  }
}
