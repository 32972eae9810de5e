/** Masking the comments and literals of C++ text while keeping its layout. */
module SourceMasking {

  // ----- searching -----

  predicate OccursAt(text: string, pattern: string, i: nat) {
    i + |pattern| <= |text| && text[i..i + |pattern|] == pattern
  }

  /** First occurrence wholly inside [start, end), or -1. */
  function Find(text: string, pattern: string, start: nat, end: nat): (k: int)
    requires end <= |text|
    ensures k == -1 || (start <= k && k + |pattern| <= end && OccursAt(text, pattern, k))
    ensures forall i: nat :: start <= i && i + |pattern| <= end && OccursAt(text, pattern, i) ==> 0 <= k <= i
    decreases end + 1 - start
  {
    if start + |pattern| > end then -1
    else if OccursAt(text, pattern, start) then start
    else Find(text, pattern, start + 1, end)
  }

  // ----- tokens -----

  /** End of a literal whose opening quote lies before i: past its closing quote, or the end of the text. */
  function LiteralEnd(text: string, quote: char, i: nat): (end: nat)
    requires i <= |text|
    ensures i <= end <= |text|
    decreases |text| - i
  {
    if i == |text| then i
    else if text[i] == '\\' then LiteralEnd(text, quote, if i + 2 <= |text| then i + 2 else |text|)
    else if text[i] == quote then i + 1
    else LiteralEnd(text, quote, i + 1)
  }

  function RawOpen(text: string): (k: int)
    ensures k == -1 || 2 <= k < |text|
  {
    Find(text, "(", 2, if |text| <= 19 then |text| else 19)
  }

  function EndAfter(text: string, pattern: string, start: nat): (end: nat)
    ensures end <= |text| && (start <= |text| ==> start <= end)
  {
    var k := Find(text, pattern, start, |text|);
    if k < 0 then |text| else k + |pattern|
  }

  predicate IsQuote(c: char) {
    c == '\"' || c == '\''
  }

  predicate Starts(text: string, pattern: string) {
    OccursAt(text, pattern, 0)
  }

  predicate OpensRaw(text: string) {
    Starts(text, "R\"") && RawOpen(text) >= 0
  }

  predicate Masks(text: string)
    requires text != ""
  {
    Starts(text, "//") || Starts(text, "/*") || OpensRaw(text) || IsQuote(text[0])
  }

  /** Length of the token at the front: a comment, a literal, or one plain character. */
  function TokenLength(text: string): (n: nat)
    requires text != ""
    ensures 1 <= n <= |text|
  {
    if Starts(text, "//") then
      var k := Find(text, "\n", 2, |text|);
      if k < 0 then |text| else k
    else if Starts(text, "/*") then EndAfter(text, "*/", 2)
    else if OpensRaw(text) then
      EndAfter(text, ")" + text[2..RawOpen(text)] + "\"", RawOpen(text) + 1)
    else if IsQuote(text[0]) then LiteralEnd(text, text[0], 1)
    else 1
  }

  function Blank(text: string): (r: string)
    ensures |r| == |text|
    ensures forall i :: 0 <= i < |text| ==> r[i] == if text[i] == '\n' then '\n' else ' '
  {
    seq(|text|, i requires 0 <= i < |text| => if text[i] == '\n' then '\n' else ' ')
  }

  /** The masked text, token by token. */
  function Masked(text: string): (r: string)
    ensures |r| == |text|
  {
    if text == "" then ""
    else
      var n := TokenLength(text);
      (if Masks(text) then Blank(text[..n]) else text[..n]) + Masked(text[n..])
  }

  // ----- what masking guarantees -----

  /** Position by position the text or a blank, and every newline where it was. */
  predicate LayoutKept(text: string, masked: string) {
    && |masked| == |text|
    && forall i :: 0 <= i < |text| ==>
      && (masked[i] == text[i] || masked[i] == ' ')
      && (masked[i] == '\n' <==> text[i] == '\n')
  }

  /** No quote, and nothing that opens a comment. */
  predicate Clean(text: string) {
    && (forall i :: 0 <= i < |text| ==> !IsQuote(text[i]))
    && (forall i: nat :: i < |text| ==> !OccursAt(text, "//", i) && !OccursAt(text, "/*", i))
  }

  lemma PairAt(text: string, pattern: string, i: nat)
    requires |pattern| == 2
    ensures OccursAt(text, pattern, i) <==> i + 2 <= |text| && text[i] == pattern[0] && text[i + 1] == pattern[1]
  {
    if i + 2 <= |text| {
      assert text[i..i + 2] == [text[i], text[i + 1]];
      assert pattern == [pattern[0], pattern[1]];
    }
  }

  lemma {:induction false} MaskedKeepsLayout(text: string)
    ensures LayoutKept(text, Masked(text))
  {
    hide TokenLength, Masks;
    if text != "" {
      var n := TokenLength(text);
      MaskedKeepsLayout(text[n..]);
      TokenKeepsLayout(text[..n]);
      hide LayoutKept, Blank;
      LayoutJoins(text[..n], if Masks(text) then Blank(text[..n]) else text[..n], text[n..], Masked(text[n..]));
      assert text[..n] + text[n..] == text;
    }
  }

  lemma TokenKeepsLayout(text: string)
    ensures LayoutKept(text, Blank(text)) && LayoutKept(text, text)
  {
  }

  lemma LayoutJoins(a: string, a': string, b: string, b': string)
    requires LayoutKept(a, a') && LayoutKept(b, b')
    ensures LayoutKept(a + b, a' + b')
  {
  }

  /** Joining clean texts is clean unless the seam opens a comment. */
  lemma CleanJoin(a: string, b: string)
    requires Clean(a) && Clean(b)
    requires a != "" && b != "" ==> !(a[|a| - 1] == '/' && (b[0] == '/' || b[0] == '*'))
    ensures Clean(a + b)
  {
    var ab := a + b;
    forall i: nat, pattern: string | i < |ab| && (pattern == "//" || pattern == "/*") ensures !OccursAt(ab, pattern, i) {
      PairAt(ab, pattern, i);
      if i < |a| {
        PairAt(a, pattern, i);
        assert !OccursAt(a, pattern, i);
      } else {
        PairAt(b, pattern, i - |a|);
        assert !OccursAt(b, pattern, i - |a|);
      }
    }
  }

  lemma NoSlashIsClean(text: string)
    requires forall i :: 0 <= i < |text| ==> text[i] != '/' && !IsQuote(text[i])
    ensures Clean(text)
  {
    forall i: nat, pattern: string | i < |text| && (pattern == "//" || pattern == "/*") ensures !OccursAt(text, pattern, i) {
      PairAt(text, pattern, i);
    }
  }

  /** The masked text holds no quote and opens no comment. */
  lemma {:induction false} MaskedIsClean(text: string)
    ensures Clean(Masked(text))
  {
    if text != "" {
      var n := TokenLength(text);
      var rest := Masked(text[n..]);
      MaskedIsClean(text[n..]);
      MaskedKeepsLayout(text[n..]);
      var head := if Masks(text) then Blank(text[..n]) else text[..n];
      if Masks(text) {
        NoSlashIsClean(head);
      } else {
        assert n == 1;
        PairAt(text, "//", 0);
        PairAt(text, "/*", 0);
        SingleIsClean(text[0]);
        assert head == [text[0]];
        assert rest != "" ==> rest[0] == text[1] || rest[0] == ' ';
      }
      CleanJoin(head, rest);
      hide Masks, TokenLength, Clean;
    } else {
      NoSlashIsClean("");
    }
  }

  lemma SingleIsClean(c: char)
    requires !IsQuote(c)
    ensures Clean([c])
  {
    forall i: nat, pattern: string | i < 1 && (pattern == "//" || pattern == "/*") ensures !OccursAt([c], pattern, i) {
      PairAt([c], pattern, i);
    }
  }

  /** Text with no quote and no comment opener is left alone. */
  lemma {:induction false} CleanIsKept(text: string)
    requires Clean(text)
    ensures Masked(text) == text
  {
    if text != "" {
      assert !OccursAt(text, "//", 0) && !OccursAt(text, "/*", 0);
      PairAt(text, "R\"", 0);
      assert !Masks(text) && TokenLength(text) == 1;
      CleanSuffix(text);
      CleanIsKept(text[1..]);
    }
  }

  lemma CleanSuffix(text: string)
    requires Clean(text) && text != ""
    ensures Clean(text[1..])
  {
    forall i: nat, pattern: string | i < |text| - 1 && (pattern == "//" || pattern == "/*")
      ensures !OccursAt(text[1..], pattern, i)
    {
      PairAt(text, pattern, i + 1);
      PairAt(text[1..], pattern, i);
      assert !OccursAt(text, pattern, i + 1);
    }
  }

  /** Masking twice is masking once. */
  lemma MaskedTwice(text: string)
    ensures Masked(Masked(text)) == Masked(text)
  {
    MaskedIsClean(text);
    CleanIsKept(Masked(text));
  }

  // ----- what each token is -----

  /** A token at the front is blanked, or kept, and the rest is masked on its own. */
  lemma TokenFirst(token: string, rest: string)
    requires token != "" && TokenLength(token + rest) == |token|
    ensures Masked(token + rest) == (if Masks(token + rest) then Blank(token) else token) + Masked(rest)
  {
    hide TokenLength, Masks;
    assert (token + rest)[..|token|] == token && (token + rest)[|token|..] == rest;
  }

  /** A character that is no quote and opens neither a comment nor a raw literal is kept. */
  lemma CodeIsKept(c: char, rest: string)
    requires !IsQuote(c)
    requires rest != "" ==> !(c == '/' && rest[0] in {'/', '*'}) && !(c == 'R' && rest[0] == '\"')
    ensures Masked([c] + rest) == [c] + Masked(rest)
  {
    var text := [c] + rest;
    PairAt(text, "//", 0);
    PairAt(text, "/*", 0);
    PairAt(text, "R\"", 0);
    TokenFirst([c], rest);
  }

  /** A line comment goes up to the newline or the end of the text. */
  lemma LineCommentIsBlanked(body: string, rest: string)
    requires '\n' !in body && (rest != "" ==> rest[0] == '\n')
    ensures Masked("//" + body + rest) == Blank("//" + body) + Masked(rest)
  {
    var token := "//" + body;
    PairAt(token + rest, "//", 0);
    LineEnds(body, rest);
    hide OccursAt, Find, Blank;
    assert TokenLength(token + rest) == |token|;
    TokenFirst(token, rest);
  }

  lemma LineEnds(body: string, rest: string)
    requires '\n' !in body && (rest != "" ==> rest[0] == '\n')
    ensures
      var text := "//" + body + rest;
      Find(text, "\n", 2, |text|) == if rest == "" then -1 else 2 + |body|
  {
    var text := "//" + body + rest;
    forall i: nat | 2 <= i < |text| ensures OccursAt(text, "\n", i) <==> text[i] == '\n' {
      assert text[i..i + 1] == [text[i]];
    }
    assert forall i: nat :: 2 <= i < 2 + |body| ==> text[i] == body[i - 2];
    if rest != "" {
      assert text[2 + |body|] == '\n';
    }
  }

  /** A block comment goes past the first closing mark. */
  lemma BlockCommentIsBlanked(body: string, rest: string)
    requires forall i: nat :: i < |body| ==> !OccursAt(body + "*/", "*/", i)
    ensures Masked("/*" + body + "*/" + rest) == Blank("/*" + body + "*/") + Masked(rest)
  {
    var token := "/*" + body + "*/";
    var text := token + rest;
    PairAt(text, "//", 0);
    PairAt(text, "/*", 0);
    ClosesAt("/*", body, "*/", rest);
    assert text == "/*" + (body + "*/") + rest;
    hide OccursAt, Find, Blank;
    assert TokenLength(text) == |token|;
    TokenFirst(token, rest);
  }

  /** Occurrences behind a prefix. */
  lemma OccursAfter(p: string, t: string, mark: string, i: nat)
    ensures OccursAt(p + t, mark, |p| + i) <==> OccursAt(t, mark, i)
  {
    if i + |mark| <= |t| {
      assert (p + t)[|p| + i..|p| + i + |mark|] == t[i..i + |mark|];
    }
  }

  /** Occurrences that end before what is appended. */
  lemma OccursBefore(t: string, rest: string, mark: string, i: nat)
    requires i + |mark| <= |t|
    ensures OccursAt(t + rest, mark, i) <==> OccursAt(t, mark, i)
  {
    assert (t + rest)[i..i + |mark|] == t[i..i + |mark|];
  }

  /** Where a mark first closes a text that begins with `head` and `body`. */
  lemma ClosesAt(head: string, body: string, mark: string, rest: string)
    requires mark != "" && forall i: nat :: i < |body| ==> !OccursAt(body + mark, mark, i)
    ensures
      var text := head + (body + mark) + rest;
      Find(text, mark, |head|, |text|) == |head| + |body|
  {
    var inner := body + mark;
    var text := head + inner + rest;
    forall i: nat | i <= |body| ensures OccursAt(text, mark, |head| + i) <==> OccursAt(inner, mark, i) {
      OccursBefore(head + inner, rest, mark, |head| + i);
      OccursAfter(head, inner, mark, i);
    }
    assert inner[|body|..|body| + |mark|] == mark;
    assert OccursAt(inner, mark, |body|);
    hide OccursAt, Find;
    var k := Find(text, mark, |head|, |text|);
    assert OccursAt(text, mark, |head| + |body|);
    if k != |head| + |body| {
      OccursBefore(head + inner, rest, mark, k);
      OccursAfter(head, inner, mark, k - |head|);
    }
  }

  /** A comment that is never closed goes to the end. */
  lemma OpenCommentIsBlanked(body: string)
    requires forall i: nat :: i < |body| ==> !OccursAt(body, "*/", i)
    ensures Masked("/*" + body) == Blank("/*" + body)
  {
    hide Find, Blank, Masks, TokenLength, Masked;
    var text := "/*" + body;
    OpenCommentLength(body);
    NothingMasked();
    assert text + "" == text;
    TokenFirst(text, "");
    assert Blank(text) + "" == Blank(text);
  }

  lemma NothingMasked()
    ensures Masked("") == ""
  {
  }

  lemma OpenCommentLength(body: string)
    requires forall i: nat :: i < |body| ==> !OccursAt(body, "*/", i)
    ensures TokenLength("/*" + body) == |"/*" + body| && Masks("/*" + body)
  {
    hide Find;
    PairAt("/*" + body, "//", 0);
    PairAt("/*" + body, "/*", 0);
    NeverCloses(body);
  }

  lemma NeverCloses(body: string)
    requires forall i: nat :: i < |body| ==> !OccursAt(body, "*/", i)
    ensures Find("/*" + body, "*/", 2, |"/*" + body|) == -1
  {
    var text := "/*" + body;
    forall i: nat | 2 <= i < |text| ensures !OccursAt(text, "*/", i) {
      PairAt(text, "*/", i);
      PairAt(body, "*/", i - 2);
      assert !OccursAt(body, "*/", i - 2);
    }
  }

  /** A literal's inside: no bare quote of its kind, and a backslash takes the character after it along. */
  predicate Inside(quote: char, body: string) {
    || body == ""
    || (body[0] == '\\' && |body| >= 2 && Inside(quote, body[2..]))
    || (body[0] != '\\' && body[0] != quote && Inside(quote, body[1..]))
  }

  /** A literal goes past its closing quote. */
  lemma LiteralIsBlanked(quote: char, body: string, rest: string)
    requires IsQuote(quote) && Inside(quote, body)
    ensures Masked([quote] + body + [quote] + rest) == Blank([quote] + body + [quote]) + Masked(rest)
  {
    var token := [quote] + body + [quote];
    var text := token + rest;
    PairAt(text, "//", 0);
    PairAt(text, "/*", 0);
    PairAt(text, "R\"", 0);
    LiteralCloses(text, quote, body, 1, |token|);
    hide OccursAt, Find;
    TokenFirst(token, rest);
  }

  lemma {:induction false} LiteralCloses(text: string, quote: char, body: string, i: nat, end: nat)
    requires IsQuote(quote) && Inside(quote, body)
    requires i + |body| + 1 == end <= |text| && text[i..i + |body|] == body && text[i + |body|] == quote
    ensures LiteralEnd(text, quote, i) == end
    decreases |body|
  {
    if body != "" {
      assert text[i] == body[0];
      if body[0] == '\\' {
        assert text[i + 2..i + 2 + |body[2..]|] == body[2..];
        LiteralCloses(text, quote, body[2..], i + 2, end);
      } else {
        assert text[i + 1..i + 1 + |body[1..]|] == body[1..];
        LiteralCloses(text, quote, body[1..], i + 1, end);
      }
    }
  }

  /** A literal that is never closed goes to the end. */
  lemma OpenLiteralIsBlanked(quote: char, body: string)
    requires IsQuote(quote) && Inside(quote, body)
    ensures Masked([quote] + body) == Blank([quote] + body)
  {
    var text := [quote] + body;
    PairAt(text, "//", 0);
    PairAt(text, "/*", 0);
    PairAt(text, "R\"", 0);
    LiteralRuns(text, quote, body, 1);
    NothingMasked();
    assert text + "" == text;
    hide OccursAt, Find, Blank, Masked;
    assert TokenLength(text) == |text|;
    TokenFirst(text, "");
    assert Blank(text) + "" == Blank(text);
  }

  lemma {:induction false} LiteralRuns(text: string, quote: char, body: string, i: nat)
    requires IsQuote(quote) && Inside(quote, body) && i + |body| == |text| && text[i..] == body
    ensures LiteralEnd(text, quote, i) == |text|
    decreases |body|
  {
    if body != "" {
      assert text[i] == body[0];
      if body[0] == '\\' {
        assert text[i + 2..] == body[2..];
        LiteralRuns(text, quote, body[2..], i + 2);
      } else {
        assert text[i + 1..] == body[1..];
        LiteralRuns(text, quote, body[1..], i + 1);
      }
    }
  }

  /** A raw literal goes past the first closing mark with its own delimiter, of at most 16 characters. */
  lemma RawLiteralIsBlanked(delimiter: string, body: string, rest: string)
    requires |delimiter| <= 16 && '(' !in delimiter
    requires
      var mark := ")" + delimiter + "\"";
      forall i: nat :: i < |body| ==> !OccursAt(body + mark, mark, i)
    ensures
      var token := "R\"" + delimiter + "(" + body + ")" + delimiter + "\"";
      Masked(token + rest) == Blank(token) + Masked(rest)
  {
    var mark := ")" + delimiter + "\"";
    var head := "R\"" + delimiter + "(";
    var token := "R\"" + delimiter + "(" + body + ")" + delimiter + "\"";
    assert token == head + (body + mark);
    var text := token + rest;
    PairAt(text, "//", 0);
    PairAt(text, "/*", 0);
    PairAt(text, "R\"", 0);
    assert text == head + (body + mark + rest);
    RawOpens(text, delimiter, body + mark + rest);
    assert text[2..2 + |delimiter|] == delimiter;
    ClosesAt(head, body, mark, rest);
    assert text == head + (body + mark) + rest;
    hide OccursAt, Find, Blank;
    assert TokenLength(text) == |token|;
    TokenFirst(token, rest);
  }

  lemma RawOpens(text: string, delimiter: string, tail: string)
    requires |delimiter| <= 16 && '(' !in delimiter && text == "R\"" + delimiter + "(" + tail
    ensures RawOpen(text) == 2 + |delimiter|
  {
    var open := 2 + |delimiter|;
    assert text[open..open + 1] == "(";
    assert OccursAt(text, "(", open);
    forall i: nat | 2 <= i < open ensures !OccursAt(text, "(", i) {
      assert text[i..i + 1] == [text[i]] && text[i] == delimiter[i - 2];
    }
  }

  // ----- the masker -----

  function Blanked(text: string, start: nat, end: nat): string
    requires start <= end <= |text|
  {
    text[..start] + Blank(text[start..end]) + text[end..]
  }

  /** Blanks a stretch of the output, newlines aside. */
  method Mask(out: array<char>, start: nat, end: nat)
    requires start <= end <= out.Length
    modifies out
    ensures out[..] == Blanked(old(out[..]), start, end)
  {
    for position := start to end
      invariant forall i :: 0 <= i < start || position <= i < out.Length ==> out[i] == old(out[i])
      invariant forall i :: start <= i < position ==> out[i] == if old(out[i]) == '\n' then '\n' else ' '
    {
      if out[position] != '\n' {
        out[position] := ' ';
      }
    }
    ghost var was := old(out[..]);
    assert out[..start] == was[..start] && out[end..] == was[end..];
    assert out[start..end] == Blank(was[start..end]);
    assert out[..] == out[..start] + out[start..end] + out[end..];
  }

  /** Where the token at index ends, and whether it is masked. */
  method TokenEnd(text: string, index: nat) returns (end: nat, masks: bool)
    requires index < |text|
    ensures end == index + TokenLength(text[index..]) && masks == Masks(text[index..])
  {
    var rest := text[index..];
    if Starts(rest, "//") {
      var k := Find(rest, "\n", 2, |rest|);
      return if k < 0 then |text| else index + k, true;
    }
    if Starts(rest, "/*") {
      var k := Find(rest, "*/", 2, |rest|);
      return if k < 0 then |text| else index + k + 2, true;
    }
    if Starts(rest, "R\"") {
      var open := Find(rest, "(", 2, if |rest| <= 19 then |rest| else 19);
      if open >= 0 {
        var terminator := ")" + rest[2..open] + "\"";
        var k := Find(rest, terminator, open + 1, |rest|);
        return if k < 0 then |text| else index + k + |terminator|, true;
      }
    }
    if IsQuote(rest[0]) {
      var i := 1;
      while i < |rest|
        invariant 1 <= i <= |rest|
        invariant LiteralEnd(rest, rest[0], 1) == LiteralEnd(rest, rest[0], i)
      {
        if rest[i] == '\\' {
          i := if i + 2 <= |rest| then i + 2 else |rest|;
        } else {
          i := i + 1;
          if rest[i - 1] == rest[0] {
            return index + i, true;
          }
        }
      }
      return index + i, true;
    }
    return index + 1, false;
  }

  method StripCommentsAndLiterals(text: string) returns (masked: string)
    ensures masked == Masked(text)
    ensures LayoutKept(text, masked) && Clean(masked)
  {
    hide Masked, Masks, TokenLength, Clean, LayoutKept, Blank, Blanked;
    var out := new char[|text|](i requires 0 <= i < |text| => text[i]);
    var index := 0;
    ghost var done := "";
    assert out[..] == text && Progressed(text, out[..], 0, done);
    hide Progressed;
    while index < |text|
      invariant index <= |text| == out.Length
      invariant Progressed(text, out[..], index, done)
    {
      var end, masks := TokenEnd(text, index);
      MaskedStep(text, index, end, out[..], done);
      if masks {
        Mask(out, index, end);
      }
      done := out[..end];
      index := end;
    }
    masked := out[..];
    MaskedDone(text, masked, done);
    MaskedKeepsLayout(text);
    MaskedIsClean(text);
  }

  /** The output so far: the masked front, then the text as it was. */
  ghost predicate Progressed(text: string, out: string, index: nat, done: string) {
    index <= |text| && |done| == index && out == done + text[index..] && Masked(text) == done + Masked(text[index..])
  }

  lemma MaskedDone(text: string, out: string, done: string)
    requires Progressed(text, out, |text|, done)
    ensures out == Masked(text)
  {
  }

  lemma MaskedStep(text: string, index: nat, end: nat, out: string, done: string)
    requires Progressed(text, out, index, done) && index < |text| && end == index + TokenLength(text[index..])
    ensures index <= end <= |text| == |out|
    ensures
      var next := if Masks(text[index..]) then Blanked(out, index, end) else out;
      Progressed(text, next, end, next[..end])
  {
    hide TokenLength, Masks, Find, OccursAt, Blank;
    MaskedUnfolds(text, index, end);
    hide Masked;
    SplitAt(out, done, text, index, end);
    var token := if Masks(text[index..]) then Blank(text[index..end]) else text[index..end];
    hide Blanked;
    Spliced(done, token, text[end..]);
    Rejoined(done, token, Masked(text[end..]));
  }

  lemma Rejoined(a: string, b: string, c: string)
    ensures a + (b + c) == a + b + c
  {
  }

  lemma Spliced(done: string, token: string, rest: string)
    ensures (done + token + rest)[..|done| + |token|] == done + token
    ensures |done + token| == |done| + |token|
  {
  }

  lemma MaskedUnfolds(text: string, index: nat, end: nat)
    requires index < |text| && end == index + TokenLength(text[index..])
    ensures index <= end <= |text|
    ensures Masked(text[index..]) == (if Masks(text[index..]) then Blank(text[index..end]) else text[index..end]) + Masked(text[end..])
  {
    hide TokenLength, Masks;
    assert text[index..][..end - index] == text[index..end];
    assert text[index..][end - index..] == text[end..];
  }

  lemma SplitAt(out: string, done: string, text: string, index: nat, end: nat)
    requires index <= end <= |text| && |done| == index && out == done + text[index..]
    ensures out[..index] == done && out[index..end] == text[index..end] && out[end..] == text[end..]
    ensures out == done + text[index..end] + text[end..]
    ensures Blanked(out, index, end) == done + Blank(text[index..end]) + text[end..]
  {
    hide Blank;
  }
}
