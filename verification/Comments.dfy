/** The comments that claim an annotation, found by scanning the source text. */
module Comments {

  /** What a comment says, and where its `;` stands. */
  datatype Comment = Comment(at: nat, body: string)

  /** Which characters the platform trims. */
  type Blank = char -> bool

  function TrimLeft(blank: Blank, s: string): string {
    if s != "" && blank(s[0]) then TrimLeft(blank, s[1..]) else s
  }

  function TrimRight(blank: Blank, s: string): string {
    if s != "" && blank(s[|s| - 1]) then TrimRight(blank, s[..|s| - 1]) else s
  }

  function Trim(blank: Blank, s: string): string { TrimRight(blank, TrimLeft(blank, s)) }

  /** The first place from `i` on that `c` stands, or the end of the text. */
  function IndexFrom(src: string, c: char, i: nat): (j: nat)
    requires i <= |src|
    ensures i <= j <= |src| && (j < |src| ==> src[j] == c)
    ensures forall k :: i <= k < j ==> src[k] != c
    decreases |src| - i
  {
    if i == |src| || src[i] == c then i else IndexFrom(src, c, i + 1)
  }

  /** The text of a comment, trimmed. */
  function Body(blank: Blank, src: string, at: nat): string
    requires at < |src|
  {
    Trim(blank, src[at + 1..IndexFrom(src, '\n', at + 1)])
  }

  function Closer(c: char): char { if c == '"' then '"' else '>' }

  /** The comments from a place on: `annotationComments`. */
  function CommentsFrom(blank: Blank, src: string, i: nat): seq<Comment>
    decreases |src| - i
  {
    if i >= |src| then []
    else if src[i] == '"' || src[i] == '<' then
      CommentsFrom(blank, src, IndexFrom(src, Closer(src[i]), i + 1) + 1)
    else if src[i] == ';' then
      var rest := CommentsFrom(blank, src, IndexFrom(src, '\n', i + 1) + 1);
      var body := Body(blank, src, i);
      if "@" <= body then [Comment(i, body)] + rest else rest
    else CommentsFrom(blank, src, i + 1)
  }

  /** `annotationComments`, as its loop. */
  method AnnotationComments(blank: Blank, src: string) returns (out: seq<Comment>)
    ensures out == CommentsFrom(blank, src, 0)
  {
    out := [];
    var i := 0;
    while i < |src|
      invariant out + CommentsFrom(blank, src, i) == CommentsFrom(blank, src, 0)
      decreases |src| - i
    {
      var ch := src[i];
      if ch == '"' || ch == '<' {
        i := IndexFrom(src, Closer(ch), i + 1);
      } else if ch == ';' {
        var end := IndexFrom(src, '\n', i);
        var body := Trim(blank, src[i + 1..end]);
        if "@" <= body {
          out := out + [Comment(i, body)];
        }
        i := end;
      }
      i := i + 1;
    }
  }

  // ---- what is a comment, a character at a time

  /** Whether a character is in the open, or in a quoted string, prose or a comment, until a
      character ends it. */
  datatype Mode = Plain | Until(mark: char)

  function Next(mode: Mode, c: char): Mode {
    match mode
    case Plain =>
      if c == '"' then Until('"') else if c == '<' then Until('>') else if c == ';' then Until('\n') else Plain
    case Until(mark) => if c == mark then Plain else mode
  }

  function ModeAt(src: string, n: nat): Mode
    requires n <= |src|
  {
    if n == 0 then Plain else Next(ModeAt(src, n - 1), src[n - 1])
  }

  /** What stands between a `;` and the end of its line, less the blanks at both ends. */
  ghost predicate IsBody(blank: Blank, src: string, at: nat, body: string)
    requires at < |src|
  {
    exists i: nat, j: nat, end: nat :: BodySpans(blank, src, at, body, i, j, end)
  }

  predicate BodySpans(blank: Blank, src: string, at: nat, body: string, i: nat, j: nat, end: nat)
    requires at < |src|
  {
    && at < i <= j <= end <= |src|
    && (end < |src| ==> src[end] == '\n') && (forall k :: at < k < end ==> src[k] != '\n')
    && body == src[i..j] && (i < j ==> !blank(src[i]) && !blank(src[j - 1]))
    && (forall k :: at < k < i ==> blank(src[k])) && (forall k :: j <= k < end ==> blank(src[k]))
  }

  /** A comment that claims an annotation: a `;` in the open, and a text that starts with `@`. */
  ghost predicate IsClaim(blank: Blank, src: string, c: Comment) {
    && c.at < |src| && src[c.at] == ';' && ModeAt(src, c.at) == Plain
    && IsBody(blank, src, c.at, c.body) && "@" <= c.body
  }

  lemma {:induction false} LeftTrims(blank: Blank, s: string) returns (i: nat)
    ensures i <= |s| && TrimLeft(blank, s) == s[i..] && forall k :: 0 <= k < i ==> blank(s[k])
    ensures i < |s| ==> !blank(s[i])
    decreases |s|
  {
    if s != "" && blank(s[0]) {
      i := LeftTrims(blank, s[1..]);
      assert s[1..][i..] == s[i + 1..];
      assert forall k :: 1 <= k < i + 1 ==> s[k] == s[1..][k - 1];
      i := i + 1;
    } else {
      i := 0;
    }
  }

  lemma {:induction false} RightTrims(blank: Blank, s: string) returns (j: nat)
    ensures j <= |s| && TrimRight(blank, s) == s[..j] && forall k :: j <= k < |s| ==> blank(s[k])
    ensures j > 0 ==> !blank(s[j - 1])
    decreases |s|
  {
    if s != "" && blank(s[|s| - 1]) {
      j := RightTrims(blank, s[..|s| - 1]);
    } else {
      j := |s|;
    }
  }

  lemma SliceOf(src: string, from: nat, end: nat, i: nat, j: nat)
    requires from <= end <= |src| && i <= end - from && j <= end - from - i
    ensures src[from..end][i..][..j] == src[from + i..from + i + j]
    ensures forall k :: 0 <= k < end - from - i ==> src[from..end][i..][k] == src[from + i + k]
  {
  }

  /** The text trimmed is that body. */
  lemma BodyIs(blank: Blank, src: string, at: nat)
    requires at < |src|
    ensures IsBody(blank, src, at, Body(blank, src, at))
  {
    var from, end := at + 1, IndexFrom(src, '\n', at + 1);
    var line := src[from..end];
    var i := LeftTrims(blank, line);
    var rest := line[i..];
    var j := RightTrims(blank, rest);
    SliceOf(src, from, end, i, j);
    forall k | at < k < from + i ensures blank(src[k]) {
      assert src[k] == line[k - from];
    }
    forall k | from + i + j <= k < end ensures blank(src[k]) {
      assert src[k] == rest[k - from - i];
    }
    assert BodySpans(blank, src, at, Body(blank, src, at), from + i, from + i + j, end);
  }

  /** There is one. */
  lemma BodyOnce(blank: Blank, src: string, at: nat, a: string, b: string)
    requires at < |src| && IsBody(blank, src, at, a) && IsBody(blank, src, at, b)
    ensures a == b
  {
    var i: nat, j: nat, end: nat :| BodySpans(blank, src, at, a, i, j, end);
    var k: nat, l: nat, stop: nat :| BodySpans(blank, src, at, b, k, l, stop);
    assert end == stop;
    assert i < j ==> k <= i && j <= l;
    assert k < l ==> i <= k && l <= j;
  }

  lemma ClaimHere(blank: Blank, src: string, i: nat, c: Comment)
    requires i < |src| && src[i] == ';' && ModeAt(src, i) == Plain && c.at == i
    ensures IsClaim(blank, src, c) <==> c.body == Body(blank, src, i) && "@" <= c.body
  {
    BodyIs(blank, src, i);
    if IsClaim(blank, src, c) {
      BodyOnce(blank, src, i, c.body, Body(blank, src, i));
    }
  }

  /** Until its mark, a text stays in the mode it entered. */
  lemma {:induction false} StaysUntil(src: string, i: nat, k: nat, mark: char)
    requires i < k <= |src| && ModeAt(src, i + 1) == Until(mark)
    requires forall j :: i + 1 <= j < k ==> src[j] != mark
    ensures ModeAt(src, k) == Until(mark)
    decreases k
  {
    if i + 1 < k {
      StaysUntil(src, i, k - 1, mark);
    }
  }

  /** What a scan skips holds no `;` in the open, and it goes on in the open. */
  lemma Skipped(src: string, i: nat, mark: char)
    requires i < |src| && ModeAt(src, i + 1) == Until(mark)
    ensures forall k :: i < k <= IndexFrom(src, mark, i + 1) ==> ModeAt(src, k) != Plain
    ensures IndexFrom(src, mark, i + 1) < |src| ==> ModeAt(src, IndexFrom(src, mark, i + 1) + 1) == Plain
  {
    var end := IndexFrom(src, mark, i + 1);
    forall k | i < k <= end ensures ModeAt(src, k) == Until(mark) {
      StaysUntil(src, i, k, mark);
    }
  }

  /** What is yielded at a `;`, and behind it. */
  lemma CommentFound(blank: Blank, src: string, i: nat, c: Comment)
    requires i < |src| && src[i] == ';' && ModeAt(src, i) == Plain
    requires var next := IndexFrom(src, '\n', i + 1) + 1;
             c in CommentsFrom(blank, src, next) <==> c.at > i && IsClaim(blank, src, c)
    ensures c in CommentsFrom(blank, src, i) <==> c.at >= i && IsClaim(blank, src, c)
  {
    if c.at == i {
      ClaimHere(blank, src, i, c);
    }
    assert c in [Comment(i, Body(blank, src, i))] <==> c.at == i && c.body == Body(blank, src, i);
  }

  lemma NotHere(blank: Blank, src: string, i: nat, c: Comment)
    requires i < |src| && src[i] != ';'
    ensures IsClaim(blank, src, c) ==> c.at != i
  {
  }

  /** From a place in the open, the scan yields exactly the claims from there on. */
  lemma {:induction false} ScanFinds(blank: Blank, src: string, i: nat, c: Comment)
    requires i <= |src| ==> ModeAt(src, i) == Plain
    ensures c in CommentsFrom(blank, src, i) <==> c.at >= i && IsClaim(blank, src, c)
    decreases |src| - i
  {
    if i < |src| {
      assert ModeAt(src, i + 1) == Next(Plain, src[i]);
      if src[i] == '"' || src[i] == '<' {
        ScanSkips(blank, src, i, Closer(src[i]), c);
        NotHere(blank, src, i, c);
      } else if src[i] == ';' {
        ScanSkips(blank, src, i, '\n', c);
        CommentFound(blank, src, i, c);
      } else {
        ScanFinds(blank, src, i + 1, c);
        NotHere(blank, src, i, c);
      }
    }
  }

  lemma {:induction false} ScanSkips(blank: Blank, src: string, i: nat, mark: char, c: Comment)
    requires i < |src| && ModeAt(src, i + 1) == Until(mark)
    ensures var next := IndexFrom(src, mark, i + 1) + 1;
            c in CommentsFrom(blank, src, next) <==> c.at > i && IsClaim(blank, src, c)
    decreases |src| - i, 0
  {
    var end := IndexFrom(src, mark, i + 1);
    Skipped(src, i, mark);
    ScanFinds(blank, src, end + 1, c);
  }

  /** The scan yields exactly the comments outside strings and prose that start with `@`. */
  lemma ScanIsExact(blank: Blank, src: string, c: Comment)
    ensures c in CommentsFrom(blank, src, 0) <==> IsClaim(blank, src, c)
  {
    ScanFinds(blank, src, 0, c);
  }

  predicate Ascending(comments: seq<Comment>, from: nat) {
    && (forall k :: 0 <= k < |comments| ==> from <= comments[k].at)
    && forall j, k :: 0 <= j < k < |comments| ==> comments[j].at < comments[k].at
  }

  lemma AscendsFrom(comments: seq<Comment>, next: nat, i: nat)
    requires Ascending(comments, next) && i <= next
    ensures Ascending(comments, i)
  {
  }

  lemma AscendsBehind(comments: seq<Comment>, next: nat, c: Comment)
    requires Ascending(comments, next) && c.at < next
    ensures Ascending([c] + comments, c.at)
  {
    var all := [c] + comments;
    forall k | 0 < k < |all| ensures all[k] == comments[k - 1] && next <= all[k].at {
    }
  }

  /** And in order. */
  lemma {:induction false} ScanAscends(blank: Blank, src: string, i: nat)
    ensures Ascending(CommentsFrom(blank, src, i), i)
    decreases |src| - i
  {
    if i < |src| {
      var next := if src[i] == '"' || src[i] == '<' then IndexFrom(src, Closer(src[i]), i + 1) + 1
                  else if src[i] == ';' then IndexFrom(src, '\n', i + 1) + 1 else i + 1;
      var rest := CommentsFrom(blank, src, next);
      ScanAscends(blank, src, next);
      AscendsFrom(rest, next, i);
      if src[i] == ';' {
        AscendsBehind(rest, next, Comment(i, Body(blank, src, i)));
      }
    }
  }
}
