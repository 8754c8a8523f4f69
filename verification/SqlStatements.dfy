/**
 Splitting a migration into statements: a semicolon ends a statement when only blanks follow it up to a line
 break or the end of the text, and dollar-quoted bodies are never cut.
 */
module SqlStatements {
  import opened Text

  datatype Quote = Outside | Inside(tag: string)

  predicate IsWord(c: char) {
    'a' <= c <= 'z' || 'A' <= c <= 'Z' || '0' <= c <= '9' || c == '_'
  }

  function WordLength(s: string): (n: nat)
    ensures n <= |s|
  {
    if s == [] || !IsWord(s[0]) then 0 else 1 + WordLength(s[1..])
  }

  /** Length of the dollar tag at the front of `s`, or 0 when the tag is not completed by a second dollar. */
  function TagLength(s: string): (n: nat)
    ensures n <= |s|
    ensures n > 0 ==> n >= 2
  {
    if s == [] || s[0] != '$' then 0
    else
      var word := WordLength(s[1..]);
      if word + 1 < |s| && s[word + 1] == '$' then word + 2 else 0
  }

  ghost predicate IsTag(tag: string) {
    tag != [] && forall i :: 0 <= i < |tag| ==> tag[i] == '$' || IsWord(tag[i])
  }

  ghost predicate GoodQuote(q: Quote) {
    q.Inside? ==> IsTag(q.tag)
  }

  /** `rest.match(/^\s*(\n|$)/)`. */
  predicate LineEnds(rest: string) {
    rest == [] || rest[0] == '\n' || (IsSpace(rest[0]) && LineEnds(rest[1..]))
  }

  /** What one round of the scanner consumes. */
  datatype Token = Token(length: nat, next: Quote, ends: bool)

  function Next(rest: string, q: Quote): (t: Token)
    requires rest != [] && GoodQuote(q)
    ensures 1 <= t.length <= |rest| && GoodQuote(t.next)
  {
    if q.Outside? && TagLength(rest) > 0 then
      TagIsTag(rest);
      Token(TagLength(rest), Inside(rest[..TagLength(rest)]), false)
    else if q.Inside? && q.tag <= rest then Token(|q.tag|, Outside, false)
    else if q.Outside? && rest[0] == ';' && LineEnds(rest[1..]) then Token(1, Outside, true)
    else Token(1, q, false)
  }

  /** Length of the first untrimmed chunk, and whether a terminator ended it. */
  function Cut(rest: string, q: Quote): (r: (nat, bool))
    requires GoodQuote(q)
    ensures r.0 <= |rest|
    ensures r.1 ==> r.0 > 0
    ensures !r.1 ==> r.0 == |rest|
    decreases |rest|
  {
    if rest == [] then (0, false)
    else
      var t := Next(rest, q);
      if t.ends then (1, true)
      else
        var (n, terminated) := Cut(rest[t.length..], t.next);
        (t.length + n, terminated)
  }

  /** The untrimmed chunks, in order; the last one has no terminator and may be empty. */
  function Chunks(s: string): seq<string> {
    var (n, terminated) := Cut(s, Outside);
    if terminated then [s[..n]] + Chunks(s[n..]) else [s]
  }

  function TrimmedNonEmpty(s: string): seq<string> {
    if Trim(s) == [] then [] else [Trim(s)]
  }

  function Split(s: string): seq<string> {
    var (n, terminated) := Cut(s, Outside);
    if terminated then TrimmedNonEmpty(s[..n]) + Split(s[n..]) else TrimmedNonEmpty(s)
  }

  function Join(statements: seq<string>): string {
    if statements == [] then ""
    else if |statements| == 1 then statements[0]
    else statements[0] + "\n" + Join(statements[1..])
  }

  function Concat(chunks: seq<string>): string {
    if chunks == [] then "" else chunks[0] + Concat(chunks[1..])
  }

  function TrimAll(chunks: seq<string>): seq<string> {
    if chunks == [] then [] else TrimmedNonEmpty(chunks[0]) + TrimAll(chunks[1..])
  }

  // ---- Tags and line ends do not look past a breaking character ----

  lemma {:induction false} WordsAreWords(s: string)
    ensures forall i :: 0 <= i < WordLength(s) ==> IsWord(s[i])
    ensures WordLength(s) < |s| ==> !IsWord(s[WordLength(s)])
  {
    if s != [] && IsWord(s[0]) {
      WordsAreWords(s[1..]);
      assert forall i :: 1 <= i < |s| ==> s[i] == s[1..][i - 1];
    }
  }

  lemma TagIsTag(s: string)
    requires TagLength(s) > 0
    ensures IsTag(s[..TagLength(s)])
  {
    WordsAreWords(s[1..]);
    forall i | 0 <= i < TagLength(s)
      ensures s[i] == '$' || IsWord(s[i])
    {
      if 0 < i < TagLength(s) - 1 { assert s[i] == s[1..][i - 1]; }
    }
  }

  /** Text that no tag can run into. */
  predicate Breaks(x: string) {
    x == [] || (!IsWord(x[0]) && x[0] != '$')
  }

  lemma {:induction false} WordStopsAtBreak(a: string, x: string)
    requires Breaks(x)
    ensures WordLength(a + x) == WordLength(a)
  {
    if a == [] {
      assert a + x == x;
    } else {
      assert (a + x)[1..] == a[1..] + x;
      WordStopsAtBreak(a[1..], x);
    }
  }

  lemma TagStopsAtBreak(a: string, x: string)
    requires Breaks(x) && a != []
    ensures TagLength(a + x) == TagLength(a)
  {
    assert (a + x)[1..] == a[1..] + x;
    WordStopsAtBreak(a[1..], x);
  }

  lemma TagPrefixStopsAtBreak(tag: string, a: string, x: string)
    requires Breaks(x) && IsTag(tag)
    ensures tag <= a + x <==> tag <= a
  {
    if |a| < |tag| && x != [] {
      assert tag[|a|] != x[0] && (a + x)[|a|] == x[0];
    }
    assert tag <= a ==> tag <= a + x by {
      assert |tag| <= |a| ==> (a + x)[..|tag|] == a[..|tag|];
    }
  }

  /** `s` ends in a character that is not white space. */
  predicate EndsSolid(s: string) {
    s != [] && !IsSpace(s[|s| - 1])
  }

  lemma {:induction false} LineEndsInside(b: string, x: string)
    requires EndsSolid(b)
    ensures LineEnds(b + x) == LineEnds(b)
  {
    assert (b + x)[0] == b[0];
    if IsSpace(b[0]) && b[0] != '\n' {
      assert (b + x)[1..] == b[1..] + x;
      LineEndsInside(b[1..], x);
    }
  }

  lemma BlanksBreak(x: string)
    requires LineEnds(x)
    ensures Breaks(x)
  {
  }

  // ---- Tokens do not depend on what follows ----

  /** Whether a semicolon at the front of `a` ends a statement depends on `x` only when it is all of `a`. */
  lemma SemicolonIsLocal(a: string, x: string, y: string)
    requires EndsSolid(a) && (a == ";" ==> LineEnds(x) == LineEnds(y))
    ensures (a + x)[0] == a[0] == (a + y)[0]
    ensures a[0] == ';' ==> LineEnds((a + x)[1..]) == LineEnds((a + y)[1..])
  {
    hide LineEnds;
    if |a| > 1 {
      SolidSuffix(a, 1);
      assert (a + x)[1..] == a[1..] + x && (a + y)[1..] == a[1..] + y;
      LineEndsInside(a[1..], x);
      LineEndsInside(a[1..], y);
    } else {
      assert (a + x)[1..] == x && (a + y)[1..] == y;
      assert a[0] == ';' ==> a == ";";
    }
  }

  /** A token that starts in `a` is the same whatever breaking text follows, except at a final semicolon. */
  lemma TokenIsLocal(a: string, x: string, y: string, q: Quote)
    requires EndsSolid(a) && Breaks(x) && Breaks(y) && GoodQuote(q)
    requires a == ";" ==> LineEnds(x) == LineEnds(y)
    ensures Next(a + x, q) == Next(a + y, q)
    ensures Next(a + x, q).length <= |a|
  {
    SemicolonIsLocal(a, x, y);
    SolidIsNotEmpty(a);
    hide EndsSolid, LineEnds, Breaks, TagLength, IsTag;
    TagStopsAtBreak(a, x);
    TagStopsAtBreak(a, y);
    var n := TagLength(a);
    assert (a + x)[..n] == a[..n] == (a + y)[..n];
    if q.Inside? {
      TagPrefixStopsAtBreak(q.tag, a, x);
      TagPrefixStopsAtBreak(q.tag, a, y);
    }
  }

  lemma SolidSuffix(a: string, n: nat)
    requires EndsSolid(a) && n < |a|
    ensures EndsSolid(a[n..])
  {
  }

  /** Where a chunk is cut, a semicolon has just been read and the line ends. */
  lemma {:induction false} CutAtLineEnd(s: string, q: Quote)
    requires GoodQuote(q) && Cut(s, q).1
    ensures var n := Cut(s, q).0; s[n - 1] == ';' && LineEnds(s[n..])
    decreases |s|
  {
    hide Next, LineEnds;
    var t := Next(s, q);
    if t.ends {
      NextEnds(s, q);
    } else {
      CutAtLineEnd(s[t.length..], t.next);
      var n := Cut(s[t.length..], t.next).0;
      assert s[t.length..][n - 1] == s[t.length + n - 1];
      assert s[t.length..][n..] == s[t.length + n..];
    }
  }

  lemma BlanksBreakNothing()
    ensures Breaks("") && LineEnds("")
  {
  }

  /** A terminated chunk is cut at the same place whatever follows, as long as its line still ends there. */
  lemma {:induction false} CutTerminated(a: string, x: string, y: string, q: Quote)
    requires GoodQuote(q) && EndsSolid(a) && LineEnds(x) && LineEnds(y)
    requires Cut(a + x, q) == (|a|, true)
    ensures Cut(a + y, q) == (|a|, true)
    decreases |a|
  {
    hide Next, LineEnds, Breaks, EndsSolid;
    BlanksBreak(x);
    BlanksBreak(y);
    TokenIsLocal(a, x, y, q);
    SolidIsNotEmpty(a);
    var t := Next(a + x, q);
    if !t.ends {
      assert (a + x)[t.length..] == a[t.length..] + x && (a + y)[t.length..] == a[t.length..] + y;
      assert t.length < |a| by { NoCutIsZero((a + x)[t.length..], t.next); }
      SolidSuffix(a, t.length);
      CutTerminated(a[t.length..], x, y, t.next);
    }
  }

  lemma SolidIsNotEmpty(a: string)
    requires EndsSolid(a)
    ensures a != []
  {
  }

  lemma NoCutIsZero(s: string, q: Quote)
    requires GoodQuote(q) && Cut(s, q).1
    ensures Cut(s, q).0 > 0
  {
  }

  predicate Blank(s: string) {
    forall i :: 0 <= i < |s| ==> IsSpace(s[i])
  }

  lemma {:induction false} BlankLineEnds(x: string)
    requires Blank(x)
    ensures LineEnds(x)
  {
    if x != [] {
      BlankLineEnds(x[1..]);
    }
  }

  /** Trimming the end of a chunk without terminator does not create one. */
  lemma {:induction false} CutOpen(a: string, x: string, q: Quote)
    requires GoodQuote(q) && (a == [] || EndsSolid(a)) && Blank(x)
    requires !Cut(a + x, q).1
    ensures !Cut(a, q).1
    decreases |a|
  {
    hide Next, LineEnds, Breaks, EndsSolid;
    if a != [] {
      BlankLineEnds(x);
      BlanksBreak(x);
      BlanksBreakNothing();
      TokenIsLocal(a, x, "", q);
      assert a + "" == a;
      var t := Next(a + x, q);
      assert (a + x)[t.length..] == a[t.length..] + x;
      if t.length < |a| {
        SolidSuffix(a, t.length);
      }
      CutOpen(a[t.length..], x, t.next);
    }
  }

  // ---- Leading blanks ----

  lemma CutSkipsSpace(c: char, s: string)
    requires IsSpace(c)
    ensures Cut([c] + s, Outside) == (Cut(s, Outside).0 + 1, Cut(s, Outside).1)
  {
    hide Next;
    assert ([c] + s)[1..] == s;
    NextOfSpace([c] + s);
  }

  lemma NextOfSpace(rest: string)
    requires rest != [] && IsSpace(rest[0])
    ensures Next(rest, Outside) == Token(1, Outside, false)
  {
    hide LineEnds;
    assert rest[0] != '$' && rest[0] != ';';
    hide IsSpace;
  }

  lemma {:induction false} TrimStartShape(s: string)
    ensures |TrimStart(s)| <= |s|
    ensures TrimStart(s) == s[|s| - |TrimStart(s)|..]
    ensures Blank(s[..|s| - |TrimStart(s)|])
    ensures TrimStart(s) != [] ==> !IsSpace(TrimStart(s)[0])
  {
    if s != [] && IsSpace(s[0]) {
      TrimStartShape(s[1..]);
      var n := |s| - |TrimStart(s)|;
      assert s[..n] == [s[0]] + s[1..][..n - 1];
    }
  }

  lemma {:induction false} TrimEndShape(s: string)
    ensures |TrimEnd(s)| <= |s|
    ensures TrimEnd(s) == s[..|TrimEnd(s)|]
    ensures Blank(s[|TrimEnd(s)|..])
    ensures TrimEnd(s) == [] || EndsSolid(TrimEnd(s))
  {
    if s != [] && IsSpace(s[|s| - 1]) {
      var front, last := s[..|s| - 1], s[|s| - 1];
      TrimEndShape(front);
      var n := |TrimEnd(front)|;
      assert front[..n] == s[..n];
      assert s[n..] == front[n..] + [last];
    }
  }

  lemma {:induction false} TrimStartShortens(s: string)
    ensures |TrimStart(s)| <= |s|
  {
    if s != [] && IsSpace(s[0]) {
      TrimStartShortens(s[1..]);
    }
  }

  lemma {:induction false} CutSkipsBlanks(s: string)
    ensures |TrimStart(s)| <= |s|
    ensures Cut(s, Outside) == (Cut(TrimStart(s), Outside).0 + (|s| - |TrimStart(s)|), Cut(TrimStart(s), Outside).1)
  {
    hide Cut;
    if s != [] && IsSpace(s[0]) {
      var rest := s[1..];
      TrimStartShortens(rest);
      CutSkipsBlanks(rest);
      CutSkipsSpace(s[0], rest);
      assert s == [s[0]] + rest;
      assert TrimStart(s) == TrimStart(rest);
    }
  }

  lemma TrimSkipsSpace(c: char, s: string)
    requires IsSpace(c)
    ensures Trim([c] + s) == Trim(s)
  {
    assert ([c] + s)[1..] == s;
  }

  lemma SplitSkipsSpace(c: char, s: string)
    requires IsSpace(c)
    ensures Split([c] + s) == Split(s)
  {
    hide Cut, Trim, IsSpace;
    CutSkipsSpace(c, s);
    var (n, terminated) := Cut(s, Outside);
    if terminated {
      assert ([c] + s)[..n + 1] == [c] + s[..n] && ([c] + s)[n + 1..] == s[n..];
      TrimSkipsSpace(c, s[..n]);
    } else {
      TrimSkipsSpace(c, s);
    }
  }

  // ---- A terminated chunk after trimming ----

  lemma TrimIsIdempotent(s: string)
    ensures Trim(Trim(s)) == Trim(s)
  {
    TrimStartShape(s);
    TrimEndShape(TrimStart(s));
    var t := Trim(s);
    if t != [] {
      assert t[0] == TrimStart(s)[0];
    }
  }

  /** The first statement of a text, and what the text looks like from there on. */
  lemma FirstStatement(s: string)
    requires Cut(s, Outside).1
    ensures var n := Cut(s, Outside).0;
      var t := Trim(s[..n]);
      && EndsSolid(t)
      && TrimStart(s) == t + s[n..]
      && Cut(t + s[n..], Outside) == (|t|, true)
  {
    hide Cut, TrimStart, TrimEnd, LineEnds;
    var n := Cut(s, Outside).0;
    var c := s[..n];
    CutAtLineEnd(s, Outside);
    assert EndsSolid(c);
    TrimStartOfSolid(c);
    TrimEndOfSolid(TrimStart(c));
    TrimStartOfPrefix(c, s[n..]);
    assert s == c + s[n..];
    CutSkipsBlanks(s);
  }

  lemma {:induction false} TrimStartOfSolid(s: string)
    requires EndsSolid(s)
    ensures EndsSolid(TrimStart(s))
  {
    if IsSpace(s[0]) {
      assert |s| > 1;
      TrimStartOfSolid(s[1..]);
    }
  }

  lemma TrimEndOfSolid(s: string)
    requires EndsSolid(s)
    ensures TrimEnd(s) == s
  {
  }

  lemma {:induction false} TrimStartOfPrefix(c: string, rest: string)
    requires TrimStart(c) != []
    ensures TrimStart(c + rest) == TrimStart(c) + rest
  {
    if IsSpace(c[0]) {
      assert (c + rest)[1..] == c[1..] + rest;
      TrimStartOfPrefix(c[1..], rest);
    }
  }

  // ---- Main results ----

  /** The scanner loses nothing: the untrimmed chunks concatenate to the text, and trimming them gives the result. */
  lemma {:induction false} ChunksCoverText(s: string)
    ensures Concat(Chunks(s)) == s
    ensures TrimAll(Chunks(s)) == Split(s)
    decreases |s|
  {
    var (n, terminated) := Cut(s, Outside);
    if terminated {
      ChunksCoverText(s[n..]);
      assert Chunks(s)[1..] == Chunks(s[n..]);
      assert s == s[..n] + s[n..];
    } else {
      assert [s][1..] == [] && s + "" == s;
      assert TrimAll([s]) == TrimmedNonEmpty(s) + TrimAll([]);
    }
  }

  /** Splitting the newline-join of the statements returns the same statements. */
  lemma {:induction false} SplitJoinSplit(s: string)
    ensures Split(Join(Split(s))) == Split(s)
    decreases |s|
  {
    hide Cut, Trim, Join, LineEnds, TrimStart;
    var (n, terminated) := Cut(s, Outside);
    if terminated {
      var t, x := Trim(s[..n]), s[n..];
      FirstStatement(s);
      CutAtLineEnd(s, Outside);
      TrimIsIdempotent(s[..n]);
      SplitJoinSplit(x);
      JoinedStatement(t, x, Split(x));
      assert Split(s) == [t] + Split(x);
    } else {
      OpenStatement(s);
    }
  }

  lemma SplitNothing()
    ensures Split("") == []
  {
  }

  /** A terminated statement is found again in front of the joined rest. */
  lemma JoinedStatement(t: string, x: string, rest: seq<string>)
    requires EndsSolid(t) && Trim(t) == t && LineEnds(x) && Cut(t + x, Outside) == (|t|, true)
    requires Split(Join(rest)) == rest
    ensures Split(Join([t] + rest)) == [t] + rest
  {
    assert ([t] + rest)[1..] == rest;
    var y := if rest == [] then "" else ['\n'] + Join(rest);
    assert Join([t] + rest) == t + y;
    CutTerminated(t, x, y, Outside);
    assert (t + y)[..|t|] == t && (t + y)[|t|..] == y;
    if rest == [] {
      SplitNothing();
    } else {
      SplitSkipsSpace('\n', Join(rest));
    }
  }

  lemma OpenStatement(s: string)
    requires !Cut(s, Outside).1
    ensures Split(Join(TrimmedNonEmpty(s))) == TrimmedNonEmpty(s)
  {
    hide Cut, TrimStart, TrimEnd, EndsSolid;
    var t := Trim(s);
    if t == [] {
      SplitNothing();
    } else {
      CutSkipsBlanks(s);
      TrimEndShape(TrimStart(s));
      assert TrimStart(s) == t + TrimStart(s)[|t|..];
      CutOpen(t, TrimStart(s)[|t|..], Outside);
      TrimIsIdempotent(s);
    }
  }

  /** Quote state after reading all of `s`. */
  function QuoteAfter(s: string, q: Quote): Quote
    requires GoodQuote(q)
    decreases |s|
  {
    if s == [] then q else QuoteAfter(s[Next(s, q).length..], Next(s, q).next)
  }

  lemma SemicolonBreaks(x: string)
    requires x != [] && x[0] == ';'
    ensures Breaks(x)
  {
  }

  /** Cuts happen only outside dollar quotes: the text before the cutting semicolon leaves no quote open. */
  lemma {:induction false} CutsOutsideQuotes(s: string, q: Quote)
    requires GoodQuote(q) && Cut(s, q).1
    ensures QuoteAfter(s[..Cut(s, q).0 - 1], q) == Outside
    decreases |s|
  {
    hide Next, LineEnds, Breaks;
    var t := Next(s, q);
    if t.ends {
      NextEnds(s, q);
      assert s[..0] == [];
    } else {
      var n := Cut(s, q).0;
      var a, x := s[..n - 1], s[n - 1..];
      CutAtLineEnd(s, q);
      assert s == a + x && x[0] == ';';
      assert Breaks(x) by { SemicolonBreaks(x); }
      CutsOutsideQuotes(s[t.length..], t.next);
      assert s[t.length..][..n - t.length - 1] == a[t.length..];
      TokenBefore(a, x, q);
    }
  }

  /** Up to termination, a token that starts in `a` does not depend on breaking text after `a`. */
  lemma TokenBefore(a: string, x: string, q: Quote)
    requires a != [] && Breaks(x) && GoodQuote(q)
    ensures Next(a, q).length == Next(a + x, q).length && Next(a, q).next == Next(a + x, q).next
  {
    TagStopsAtBreak(a, x);
    assert (a + x)[..TagLength(a)] == a[..TagLength(a)];
    if q.Inside? {
      TagPrefixStopsAtBreak(q.tag, a, x);
    }
  }

  // ---- The scanner without its tokens ----

  /** A dollar, any number of letters, digits and underscores, and a dollar; the name may be empty. */
  ghost predicate IsDollarTag(t: string) {
    && |t| >= 2 && t[0] == '$' && t[|t| - 1] == '$'
    && forall i :: 0 < i < |t| - 1 ==> 'a' <= t[i] <= 'z' || 'A' <= t[i] <= 'Z' || '0' <= t[i] <= '9' || t[i] == '_'
  }

  lemma {:induction false} WordLengthIs(s: string, k: nat)
    requires k <= |s| && (forall i :: 0 <= i < k ==> IsWord(s[i])) && (k < |s| ==> !IsWord(s[k]))
    ensures WordLength(s) == k
  {
    if k > 0 {
      WordLengthIs(s[1..], k - 1);
    }
  }

  lemma TagHasShape(s: string)
    requires TagLength(s) > 0
    ensures IsDollarTag(s[..TagLength(s)])
  {
    var t := s[..TagLength(s)];
    WordsAreWords(s[1..]);
    forall i | 0 < i < |t| - 1
      ensures IsWord(t[i])
    {
      assert t[i] == s[1..][i - 1];
    }
  }

  lemma ShapeIsTag(s: string, n: nat)
    requires 2 <= n <= |s| && IsDollarTag(s[..n])
    ensures TagLength(s) == n
  {
    var t, tail := s[..n], s[1..];
    assert t[0] == s[0] && t[n - 1] == s[n - 1] == tail[n - 2];
    forall i | 0 <= i < n - 2
      ensures IsWord(tail[i])
    {
      assert tail[i] == t[i + 1];
    }
    WordLengthIs(tail, n - 2);
  }

  /** The tag at the front of a text is the dollar tag it starts with, if there is one. */
  lemma TagLengthIff(s: string, n: nat)
    requires n >= 2
    ensures TagLength(s) == n <==> n <= |s| && IsDollarTag(s[..n])
  {
    if TagLength(s) == n { TagHasShape(s); }
    if n <= |s| && IsDollarTag(s[..n]) { ShapeIsTag(s, n); }
  }

  lemma TagInFront(t: string, rest: string)
    requires IsDollarTag(t)
    ensures TagLength(t + rest) == |t| && |t| >= 2
  {
    assert (t + rest)[..|t|] == t;
    TagLengthIff(t + rest, |t|);
  }

  /** `t` occurs in `body + t` only at its end. */
  ghost predicate ClosesFirstAtEnd(t: string, body: string) {
    forall i :: 0 <= i < |body| ==> !(t <= (body + t)[i..])
  }

  lemma CutUnfolds(s: string, q: Quote)
    requires s != [] && GoodQuote(q) && !Next(s, q).ends
    ensures var t := Next(s, q); Cut(s, q) == (t.length + Cut(s[t.length..], t.next).0, Cut(s[t.length..], t.next).1)
  {
    hide Next;
  }

  lemma ClosingTag(t: string, rest: string)
    requires IsTag(t)
    ensures Cut(t + rest, Inside(t)) == (|t| + Cut(rest, Outside).0, Cut(rest, Outside).1)
  {
    hide Cut, TagLength, LineEnds;
    var s := t + rest;
    assert s[|t|..] == rest && t <= s;
    assert Next(s, Inside(t)) == Token(|t|, Outside, false);
    CutUnfolds(s, Inside(t));
  }

  lemma InsideByOne(t: string, s: string)
    requires IsTag(t) && s != [] && !(t <= s)
    ensures Cut(s, Inside(t)) == (1 + Cut(s[1..], Inside(t)).0, Cut(s[1..], Inside(t)).1)
  {
    hide Cut, TagLength, LineEnds;
    assert Next(s, Inside(t)) == Token(1, Inside(t), false);
    CutUnfolds(s, Inside(t));
  }

  lemma {:induction false} BodyIsSkipped(t: string, body: string, rest: string)
    requires IsTag(t) && ClosesFirstAtEnd(t, body)
    ensures Cut(body + (t + rest), Inside(t)) == (|body| + |t| + Cut(rest, Outside).0, Cut(rest, Outside).1)
    decreases |body|
  {
    hide Cut, IsTag;
    var s := body + (t + rest);
    if body == [] {
      assert s == t + rest;
      ClosingTag(t, rest);
    } else {
      NotClosedYet(t, body, rest);
      ShorterBody(t, body);
      hide ClosesFirstAtEnd;
      InsideByOne(t, s);
      assert s[1..] == body[1..] + (t + rest);
      BodyIsSkipped(t, body[1..], rest);
    }
  }

  lemma NotClosedYet(t: string, body: string, rest: string)
    requires body != [] && ClosesFirstAtEnd(t, body)
    ensures !(t <= body + (t + rest))
  {
    assert (body + t)[0..] == body + t;
    assert !(t <= (body + t)[0..]);
    assert (body + (t + rest))[..|t|] == (body + t)[..|t|];
  }

  lemma ShorterBody(t: string, body: string)
    requires body != [] && ClosesFirstAtEnd(t, body)
    ensures ClosesFirstAtEnd(t, body[1..])
  {
    forall i | 0 <= i < |body| - 1
      ensures !(t <= (body[1..] + t)[i..])
    {
      assert (body[1..] + t)[i..] == (body + t)[i + 1..];
    }
  }

  lemma DollarTagIsTag(t: string)
    requires IsDollarTag(t)
    ensures IsTag(t)
  {
  }

  function Quoted(t: string, body: string): string {
    t + body + t
  }

  lemma QuotedParts(t: string, body: string, rest: string)
    ensures Quoted(t, body) + rest == t + (body + (t + rest))
    ensures |Quoted(t, body)| == |t| + |body| + |t|
  {
  }

  /** A quoted body is never cut, whatever semicolons and line breaks it holds; scanning goes on behind its closing tag. */
  lemma QuotedIsNotCut(t: string, body: string, rest: string)
    requires IsDollarTag(t) && ClosesFirstAtEnd(t, body)
    ensures Cut(Quoted(t, body) + rest, Outside) == (|Quoted(t, body)| + Cut(rest, Outside).0, Cut(rest, Outside).1)
  {
    hide Cut, IsDollarTag, IsTag, ClosesFirstAtEnd, TagLength, Quoted;
    QuotedParts(t, body, rest);
    var x := body + (t + rest);
    DollarTagIsTag(t);
    assert TagLength(t + x) == |t| && |t| >= 2 by { TagInFront(t, x); }
    assert Cut(t + x, Outside) == (|t| + Cut(x, Inside(t)).0, Cut(x, Inside(t)).1) by { OpeningTag(t, x); }
    assert Cut(x, Inside(t)) == (|body| + |t| + Cut(rest, Outside).0, Cut(rest, Outside).1) by { BodyIsSkipped(t, body, rest); }
  }

  lemma OpeningTag(t: string, x: string)
    requires IsTag(t) && |t| >= 2 && TagLength(t + x) == |t|
    ensures Cut(t + x, Outside) == (|t| + Cut(x, Inside(t)).0, Cut(x, Inside(t)).1)
  {
    hide Cut, TagLength, LineEnds;
    var s := t + x;
    assert s[..|t|] == t && s[|t|..] == x;
    assert Next(s, Outside) == Token(|t|, Inside(t), false);
    CutUnfolds(s, Outside);
  }

  /** The same within a text: a chunk that has reached a quoted body outside quotes reaches its end uncut. */
  lemma ChunkPassesQuote(content: string, start: nat, i: nat, t: string, body: string, rest: string)
    requires IsDollarTag(t) && ClosesFirstAtEnd(t, body)
    requires Continues(content, start, i, Outside) && content[i..] == Quoted(t, body) + rest
    ensures Continues(content, start, i + |Quoted(t, body)|, Outside)
  {
    hide IsDollarTag, ClosesFirstAtEnd, Cut, Quoted;
    Behind(content, i, Quoted(t, body), rest);
    QuotedIsNotCut(t, body, rest);
    PassedBy(content, start, i, i + |Quoted(t, body)|);
  }

  /** A chunk moves on by a stretch that contains no cut. */
  lemma PassedBy(content: string, start: nat, i: nat, j: nat)
    requires Continues(content, start, i, Outside) && i <= j <= |content|
    requires Cut(content[i..], Outside) == (j - i + Cut(content[j..], Outside).0, Cut(content[j..], Outside).1)
    ensures Continues(content, start, j, Outside)
  {
    hide Cut;
  }

  lemma Behind(content: string, i: nat, piece: string, rest: string)
    requires i <= |content| && content[i..] == piece + rest
    ensures i + |piece| <= |content| && content[i + |piece|..] == rest
  {
    assert |content| - i == |piece| + |rest|;
    assert content[i + |piece|..] == content[i..][|piece|..];
  }

  /** A quote that is never closed keeps the rest of the text in one piece. */
  lemma {:induction false} OpenQuoteIsNotCut(t: string, body: string)
    requires IsTag(t) && forall i :: 0 <= i <= |body| ==> !(t <= body[i..])
    ensures Cut(body, Inside(t)) == (|body|, false)
    decreases |body|
  {
    if body != [] {
      assert body[0..] == body;
      assert Next(body, Inside(t)) == Token(1, Inside(t), false);
      assert forall i :: 0 <= i <= |body| - 1 ==> body[1..][i..] == body[i + 1..];
      OpenQuoteIsNotCut(t, body[1..]);
    }
  }

  /** A line ends where only blanks are left before a line break or the end of the text. */
  lemma {:induction false} LineEndsIff(rest: string)
    ensures LineEnds(rest) <==> exists n :: 0 <= n <= |rest| && Blank(rest[..n]) && (n == |rest| || rest[n] == '\n')
  {
    if rest == [] {
      assert Blank(rest[..0]);
    } else {
      LineEndsIff(rest[1..]);
      if LineEnds(rest) {
        if rest[0] == '\n' {
          assert Blank(rest[..0]);
        } else {
          var n :| 0 <= n <= |rest| - 1 && Blank(rest[1..][..n]) && (n == |rest| - 1 || rest[1..][n] == '\n');
          assert rest[..n + 1] == [rest[0]] + rest[1..][..n];
          assert Blank(rest[..n + 1]);
        }
      }
      if n :| 0 <= n <= |rest| && Blank(rest[..n]) && (n == |rest| || rest[n] == '\n') {
        if n > 0 {
          assert rest[..n][0] == rest[0];
          assert rest[1..][..n - 1] == rest[..n][1..];
          assert Blank(rest[1..][..n - 1]);
        }
      }
    }
  }

  /** Outside quotes, a semicolon at the end of a line always ends the chunk. */
  lemma TerminatorCuts(rest: string)
    requires rest != [] && rest[0] == ';' && LineEnds(rest[1..])
    ensures Cut(rest, Outside) == (1, true)
  {
    hide LineEnds;
  }

  /** Outside quotes, any other character that starts no dollar tag is kept. */
  lemma PlainIsKept(rest: string)
    requires rest != [] && !(rest[0] == ';' && LineEnds(rest[1..]))
    requires forall n :: 2 <= n <= |rest| ==> !IsDollarTag(rest[..n])
    ensures Cut(rest, Outside) == (1 + Cut(rest[1..], Outside).0, Cut(rest[1..], Outside).1)
  {
    if TagLength(rest) > 0 {
      TagLengthIff(rest, TagLength(rest));
    }
    assert Next(rest, Outside) == Token(1, Outside, false) by { hide LineEnds, TagLength; }
  }

  // ---- The scanner itself ----

  /** The lookahead for a dollar tag, as the nested loop of the source builds it. */
  method ScanTag(content: string, i: nat) returns (length: nat)
    requires i < |content| && content[i] == '$'
    ensures length == TagLength(content[i..])
    ensures length == 0 <==> forall n :: i + 2 <= n <= |content| ==> !IsDollarTag(content[i..n])
    ensures length > 0 ==> i + length <= |content| && IsDollarTag(content[i..i + length])
  {
    TagsAhead(content, i);
    var j := i + 1;
    ghost var rest := content[i + 1..];
    assert content[i..][1..] == rest;
    while j < |content| && IsWord(content[j])
      invariant i + 1 <= j <= |content|
      invariant WordLength(rest) == j - i - 1 + WordLength(content[j..])
    {
      assert content[j..][1..] == content[j + 1..];
      j := j + 1;
    }
    assert WordLength(content[j..]) == 0;
    if j < |content| && content[j] == '$' {
      return j - i + 1;
    }
    return 0;
  }

  lemma TagsAhead(content: string, i: nat)
    requires i < |content|
    ensures TagLength(content[i..]) == 0 <==> forall n :: i + 2 <= n <= |content| ==> !IsDollarTag(content[i..n])
    ensures var length := TagLength(content[i..]);
      length > 0 ==> i + length <= |content| && IsDollarTag(content[i..i + length])
  {
    var length := TagLength(content[i..]);
    hide TagLength, IsDollarTag;
    if length > 0 {
      TagLengthIff(content[i..], length);
      assert content[i..][..length] == content[i..i + length];
    }
    forall n | i + 2 <= n <= |content| && IsDollarTag(content[i..n])
      ensures length == n - i
    {
      TagLengthIff(content[i..], n - i);
      assert content[i..][..n - i] == content[i..n];
    }
  }

  method LineEndsAt(content: string, i: nat) returns (ends: bool)
    requires i <= |content|
    ensures ends == LineEnds(content[i..])
  {
    var j := i;
    while j < |content| && content[j] != '\n' && IsSpace(content[j])
      invariant i <= j <= |content|
      invariant LineEnds(content[i..]) == LineEnds(content[j..])
    {
      assert content[j..][1..] == content[j + 1..];
      j := j + 1;
    }
    return j == |content| || content[j] == '\n';
  }

  method SplitSqlStatements(content: string) returns (statements: seq<string>)
    ensures statements == Split(content)
  {
    hide Next, Trim, Cut, Split;
    statements := [];
    var current: string := "";
    var inDollarQuote := Outside;
    var i := 0;
    ghost var start := 0;
    while i < |content|
      invariant 0 <= start <= i <= |content| && current == content[start..i]
      invariant GoodQuote(inDollarQuote)
      invariant statements + Split(content[start..]) == Split(content)
      invariant Continues(content, start, i, inDollarQuote)
    {
      var t := NextToken(content, i, inDollarQuote);
      Advance(content, start, i, inDollarQuote);
      current := current + content[i..i + t.length];
      if t.ends {
        var trimmed := Trim(current);
        if |trimmed| > 0 {
          statements := statements + [trimmed];
        }
        current := "";
        start := i + 1;
      }
      inDollarQuote := t.next;
      i := i + t.length;
    }
    Finish(content, start, inDollarQuote);
    var trimmed := Trim(current);
    if |trimmed| > 0 {
      statements := statements + [trimmed];
    }
  }

  /** The scan of the chunk that began at `start` has reached `i` in quote state `q`. */
  ghost predicate Continues(content: string, start: nat, i: nat, q: Quote) {
    && start <= i <= |content| && GoodQuote(q)
    && Cut(content[start..], Outside) == (i - start + Cut(content[i..], q).0, Cut(content[i..], q).1)
  }

  lemma Advance(content: string, start: nat, i: nat, q: Quote)
    requires i < |content| && Continues(content, start, i, q)
    ensures var t := Next(content[i..], q);
      && i + t.length <= |content|
      && content[start..i] + content[i..i + t.length] == content[start..i + t.length]
      && (!t.ends ==> Continues(content, start, i + t.length, t.next))
      && (t.ends ==>
            && t.length == 1 && Continues(content, i + 1, i + 1, t.next)
            && Split(content[start..]) == TrimmedNonEmpty(content[start..i + 1]) + Split(content[i + 1..]))
  {
    hide Next, Trim;
    var rest := content[i..];
    var t := Next(rest, q);
    assert rest[t.length..] == content[i + t.length..];
    if t.ends {
      NextEnds(rest, q);
      assert content[start..][..i + 1 - start] == content[start..i + 1];
      assert content[start..][i + 1 - start..] == content[i + 1..];
    }
  }

  lemma Finish(content: string, start: nat, q: Quote)
    requires Continues(content, start, |content|, q)
    ensures Split(content[start..]) == TrimmedNonEmpty(content[start..|content|])
  {
    assert content[|content|..] == [];
    assert content[start..|content|] == content[start..];
  }

  lemma NextEnds(rest: string, q: Quote)
    requires rest != [] && GoodQuote(q) && Next(rest, q).ends
    ensures q == Outside && Next(rest, q) == Token(1, Outside, true) && Cut(rest, q) == (1, true)
    ensures rest[0] == ';' && LineEnds(rest[1..])
  {
  }

  /** One round of the scanner: tag start, tag end, terminator, or a single character. */
  method NextToken(content: string, i: nat, inDollarQuote: Quote) returns (t: Token)
    requires i < |content| && GoodQuote(inDollarQuote)
    ensures t == Next(content[i..], inDollarQuote)
  {
    if inDollarQuote.Outside? && content[i] == '$' {
      var length := ScanTag(content, i);
      if length > 1 {
        assert content[i..i + length] == content[i..][..length];
        return Token(length, Inside(content[i..i + length]), false);
      }
    } else if inDollarQuote.Inside? {
      var tag := inDollarQuote.tag;
      if i + |tag| <= |content| && content[i..i + |tag|] == tag {
        assert tag <= content[i..];
        return Token(|tag|, Outside, false);
      }
      assert i + |tag| <= |content| ==> content[i..i + |tag|] == content[i..][..|tag|];
    }
    if inDollarQuote.Outside? && content[i] == ';' {
      assert content[i..][1..] == content[i + 1..];
      var ends := LineEndsAt(content, i + 1);
      if ends {
        return Token(1, Outside, true);
      }
    }
    return Token(1, inDollarQuote, false);
  }
}
