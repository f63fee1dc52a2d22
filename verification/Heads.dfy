/** Request heads in general: an accepted request line, any header lines, a blank line, and
    what the server makes of a body behind them, however the stream is cut up. */
module Heads {
  import opened Options
  import opened CStrings
  import opened Messages
  import opened Streams
  import opened Http
  import opened Connection

  const CRLF: Bytes := "\r\n"

  // ----- Lines and the blank line after them ---------------------------------------------------

  predicate EndsLine(t: Bytes) {
    |t| >= 2 && t[|t| - 2] == '\r' && t[|t| - 1] == '\n'
  }

  ghost predicate BlankAt(t: Bytes, i: int) {
    0 <= i <= |t| - 4 && t[i] == '\r' && t[i + 1] == '\n' && t[i + 2] == '\r' && t[i + 3] == '\n'
  }

  lemma BlankChars(s: Bytes, i: int)
    ensures OccursAt(s, i, BLANK) <==> BlankAt(s, i)
  {
    if 0 <= i <= |s| - 4 {
      assert s[i..i + 4] == [s[i], s[i + 1], s[i + 2], s[i + 3]];
    }
  }

  /** Complete lines without a blank line among them and without a NUL. */
  ghost predicate Lines(t: Bytes) {
    EndsLine(t) && (forall i :: !BlankAt(t, i)) && (forall i :: 0 <= i < |t| ==> t[i] != NUL)
  }

  lemma MoreLines(a: Bytes, b: Bytes)
    requires Lines(a) && Lines(b) && b[0] != '\r'
    ensures Lines(a + b)
  {
    var t := a + b;
    forall i ensures !BlankAt(t, i) {
      assert !BlankAt(a, i) && !BlankAt(b, i - |a|);
    }
  }

  /** A head: lines and the blank line. */
  function Head(lines: Bytes): Bytes { lines + CRLF }

  /** The first blank line of a head followed by anything is the one that ends the head. */
  lemma FirstBlank(lines: Bytes, body: Bytes, i: int)
    requires Lines(lines)
    ensures OccursAt(Head(lines) + body, |lines| - 2, BLANK)
    ensures OccursAt(Head(lines) + body, i, BLANK) ==> i >= |lines| - 2
  {
    var s := Head(lines) + body;
    BlankChars(s, |lines| - 2);
    BlankChars(s, i);
    assert !BlankAt(lines, i);
  }

  // ----- The header loop across the end of a line --------------------------------------------------

  /** A match that starts in text ending a line ends there too. */
  lemma FieldInside(t: Bytes, x: Bytes, f: Field)
    requires EndsLine(t) && f.start < |t| && IsField(t + x, f)
    ensures End(f) <= |t| && IsField(t, f)
  {
    var s, p := t + x, |t| - 2;
    assert s[p] == '\r' && s[p + 1] == '\n';
    assert f.start != p && f.start != p + 1;
    assert forall i :: 0 <= i < |t| ==> s[i] == t[i];
  }

  lemma FieldGrows(t: Bytes, x: Bytes, f: Field)
    requires IsField(t, f)
    ensures IsField(t + x, f)
  {
    assert forall i :: 0 <= i < |t| ==> (t + x)[i] == t[i];
  }

  lemma FieldSame(t: Bytes, x: Bytes, i: nat)
    requires EndsLine(t) && i < |t|
    ensures FieldAt(t + x, i) == FieldAt(t, i)
  {
    if FieldAt(t + x, i).Some? {
      var f := FieldAt(t + x, i).value;
      FieldAtExact(t + x, f);
      FieldInside(t, x, f);
      FieldAtExact(t, f);
    } else if FieldAt(t, i).Some? {
      var f := FieldAt(t, i).value;
      FieldAtExact(t, f);
      FieldGrows(t, x, f);
      FieldAtExact(t + x, f);
    }
  }

  lemma {:induction false} FindSame(t: Bytes, x: Bytes, i: nat)
    requires EndsLine(t) && i <= |t|
    ensures FindField(t + x, i) == if FindField(t, i).Some? then FindField(t, i) else FindField(t + x, |t|)
    decreases |t| - i
  {
    if i < |t| {
      FieldSame(t, x, i);
      FindSame(t, x, i + 1);
    }
  }

  lemma CapturesSame(t: Bytes, x: Bytes, f: Field)
    requires f.start <= f.key && f.key + 2 <= f.value && f.value <= |t|
    ensures Captures(t + x, f) == Captures(t, f)
  {
    assert (t + x)[f.start..f.key] == t[f.start..f.key];
    assert (t + x)[f.key + 2..f.value] == t[f.key + 2..f.value];
  }

  lemma NextSame(t: Bytes, x: Bytes, i: nat)
    requires EndsLine(t) && i <= |t|
    ensures NextHeader(t + x, i) == if NextHeader(t, i).Some? then NextHeader(t, i) else NextHeader(t + x, |t|)
  {
    FindSame(t, x, i);
    if FindField(t, i).Some? {
      CapturesSame(t, x, FindField(t, i).value);
    }
  }

  /** The headers found in text behind complete lines are those of the lines and then those of
      the text. */
  lemma {:induction false} HeadersSplit(t: Bytes, x: Bytes, a: nat)
    requires EndsLine(t) && a <= |t|
    ensures Headers(t + x, a) == Headers(t, a) + Headers(t + x, |t|)
    decreases |t| - a
  {
    NextSame(t, x, a);
    if NextHeader(t, a).Some? {
      var h := NextHeader(t, a).value;
      HeadersSplit(t, x, h.end);
      HeadersUnfold(t, a, h);
      HeadersUnfold(t + x, a, h);
      Chain(h, Headers(t, h.end), Headers(t + x, |t|));
    } else {
      SameNext(t + x, a, |t|);
    }
  }

  lemma Chain(h: Header, hs: seq<Header>, more: seq<Header>)
    ensures [h] + (hs + more) == [h] + hs + more
  {
  }

  lemma HeadersUnfold(s: Bytes, a: nat, h: Header)
    requires a <= |s| && NextHeader(s, a) == Some(h)
    ensures Headers(s, a) == [h] + Headers(s, h.end)
  {
  }

  lemma SameNext(s: Bytes, a: nat, b: nat)
    requires a <= |s| && b <= |s| && NextHeader(s, a) == NextHeader(s, b)
    ensures Headers(s, a) == Headers(s, b)
  {
  }

  lemma {:induction false} HeadersBound(s: Bytes, a: nat)
    requires a <= |s|
    ensures a <= HeadersEnd(a, Headers(s, a)) <= |s|
    ensures NextHeader(s, a).Some? ==> Headers(s, a) != [] && HeadersEnd(a, Headers(s, a)) >= NextHeader(s, a).value.end
    decreases |s| - a
  {
    var h := NextHeader(s, a);
    if h.Some? {
      HeadersBound(s, h.value.end);
      EndOfBoth(a, [h.value], Headers(s, h.value.end));
    }
  }

  lemma EndOfBoth(a: nat, hs: seq<Header>, more: seq<Header>)
    ensures HeadersEnd(a, hs + more) == HeadersEnd(HeadersEnd(a, hs), more)
    ensures more == [] ==> hs + more == hs
  {
  }

  /** Some match from `a` on ends where the text ends. */
  ghost predicate EndsInField(t: Bytes, a: nat) {
    exists f: Field :: a <= f.start && IsField(t, f) && End(f) == |t|
  }

  /** No match starts inside another one and ends later. */
  lemma NoOverlap(t: Bytes, f: Field, g: Field)
    requires IsField(t, f) && IsField(t, g) && g.start < End(f)
    ensures End(g) <= End(f)
  {
    var e := End(f);
    assert t == t[..e] + t[e..];
    FieldInside(t[..e], t[e..], g);
  }

  lemma LastMatch(t: Bytes, a: nat)
    requires a <= |t| && FindField(t, a).Some?
    ensures var e := End(FindField(t, a).value); EndsInField(t, a) <==> e == |t| || EndsInField(t, e)
  {
    var f := FindField(t, a).value;
    FindFieldIsField(t, a);
    if EndsInField(t, a) {
      var g: Field :| a <= g.start && IsField(t, g) && End(g) == |t|;
      if g.start < End(f) {
        NoOverlap(t, f, g);
      }
    }
  }

  /** The header loop reaches the end of a text exactly when there is nothing to scan or a match
      ends there. */
  lemma {:induction false} ReachesEnd(t: Bytes, a: nat)
    requires a <= |t|
    ensures HeadersEnd(a, Headers(t, a)) == |t| <==> a == |t| || EndsInField(t, a)
    decreases |t| - a
  {
    if NextHeader(t, a).Some? {
      var h := NextHeader(t, a).value;
      ReachesEnd(t, h.end);
      HeadersUnfold(t, a, h);
      EndOfBoth(a, [h], Headers(t, h.end));
      LastMatch(t, a);
    } else if EndsInField(t, a) {
      var g: Field :| a <= g.start && IsField(t, g) && End(g) == |t|;
      FindFieldLeftmost(t, a, g);
    }
  }

  // ----- Header-shaped text ------------------------------------------------------------------------

  /** Header-shaped text: something the header loop would take for a header. */
  predicate HasHeader(t: string) { FindField(t, 0).Some? }

  /** Text in front does not matter to a search that starts behind it. */
  lemma {:induction false} RunShift(pre: string, x: string, i: nat, p: char -> bool)
    requires i <= |x|
    ensures RunEnd(pre + x, |pre| + i, p) == |pre| + RunEnd(x, i, p)
    decreases |x| - i
  {
    if i < |x| && p(x[i]) {
      RunShift(pre, x, i + 1, p);
    }
  }

  lemma FieldShift(pre: string, x: string, i: nat)
    requires i <= |x|
    ensures FieldAt(pre + x, |pre| + i).Some? <==> FieldAt(x, i).Some?
  {
    RunShift(pre, x, i, KeyChar);
    var k := RunEnd(x, i, KeyChar);
    if k + 2 <= |x| {
      RunShift(pre, x, k + 2, ValueChar);
    }
  }

  lemma {:induction false} FindShift(pre: string, x: string, i: nat)
    requires i <= |x|
    ensures FindField(pre + x, |pre| + i).Some? <==> FindField(x, i).Some?
    decreases |x| - i
  {
    if i < |x| {
      FieldShift(pre, x, i);
      FindShift(pre, x, i + 1);
    }
  }

  /** Header-shaped text stays header-shaped when more follows. */
  lemma HeaderInPrefix(p: string, q: string)
    requires p <= q && HasHeader(p)
    ensures HasHeader(q)
  {
    var f := FindField(p, 0).value;
    FindFieldIsField(p, 0);
    assert q == p + q[|p|..];
    FieldGrows(p, q[|p|..], f);
    FindFieldLeftmost(q, 0, f);
  }

  /** The line break behind a head is no header. */
  lemma AfterHead(pre: string, t: string)
    ensures NextHeader(pre + (CRLF + t), |pre|).Some? <==> HasHeader(t)
  {
    var s := pre + (CRLF + t);
    assert s == (pre + CRLF) + t;
    FindShift(pre + CRLF, t, 0);
    assert s[|pre|] == '\r' && s[|pre| + 1] == '\n';
    assert FieldAt(s, |pre|).None? && FieldAt(s, |pre| + 1).None?;
    assert FindField(s, |pre|) == FindField(s, |pre| + 2);
  }

  // ----- The head decides ----------------------------------------------------------------------------

  /** The pattern looks at nothing behind the line it matches. */
  lemma LineOn(t: Bytes, s: Bytes, l: Line)
    requires t <= s && l.minor + 2 <= |t|
    ensures IsLine(t, l) <==> IsLine(s, l)
  {
    assert forall i :: 0 <= i < |t| ==> s[i] == t[i];
  }

  lemma LineSame(t: Bytes, s: Bytes, l: Line)
    requires t <= s && l.minor + 2 <= |t|
    ensures MatchLine(t) == Some(l) <==> MatchLine(s) == Some(l)
  {
    if MatchLine(t) == Some(l) {
      LineCarries(t, s, t, s, l);
    }
    if MatchLine(s) == Some(l) {
      LineCarries(t, s, s, t, l);
    }
  }

  /** From one of the two texts to the other. */
  lemma LineCarries(t: Bytes, s: Bytes, x: Bytes, y: Bytes, l: Line)
    requires t <= s && l.minor + 2 <= |t| && ((x == t && y == s) || (x == s && y == t)) && MatchLine(x) == Some(l)
    ensures MatchLine(y) == Some(l)
  {
    MatchLineIsLine(x);
    LineOn(t, s, l);
    LineUnique(y, l);
    var r := MatchLine(y).value;
    MatchLineIsLine(y);
    LineOn(t, s, r);
    LineUnique(x, r);
  }

  /** What the verdict on an accepted text is made of. */
  lemma AcceptedIs(s: Bytes)
    requires ParseText(s).status.None?
    ensures MatchLine(s).Some?
    ensures var l := MatchLine(s).value;
            && l.minor == l.major + 2 && s[l.major + 1] == '1'
            && ParseText(s) == Welcome(s, VerbOf(s), s[l.method_ + 2..l.uri], l.minor + 2)
  {
  }

  lemma WelcomeIs(s: Bytes, l: Line)
    requires MatchLine(s) == Some(l) && l.minor == l.major + 2 && s[l.major + 1] == '1'
    ensures ParseText(s) == Welcome(s, VerbOf(s), s[l.method_ + 2..l.uri], l.minor + 2)
  {
  }

  /** A text with the same request line is accepted too, with the same method and URI. */
  lemma SameWelcome(t: Bytes, s: Bytes)
    requires t <= s && ParseText(t).status.None?
    ensures MatchLine(t).Some? && MatchLine(t).value.minor + 2 <= |t|
    ensures var a := MatchLine(t).value.minor + 2;
            && ParseText(t) == Welcome(t, ParseText(t).verb, ParseText(t).uri, a)
            && ParseText(s) == Welcome(s, ParseText(t).verb, ParseText(t).uri, a)
  {
    AcceptedIs(t);
    var l := MatchLine(t).value;
    LineSame(t, s, l);
    WelcomeIs(s, l);
    assert s[..|t|] == t;
    assert s[l.method_ + 2..l.uri] == t[l.method_ + 2..l.uri];
  }

  lemma MatchKept(t: Bytes, s: Bytes)
    requires t <= s && ParseText(t).status.None?
    ensures MatchLine(t).Some? && MatchLine(s) == MatchLine(t)
  {
    AcceptedIs(t);
    LineSame(t, s, MatchLine(t).value);
  }

  /** So is a prefix that holds the request line. */
  lemma PrefixAccepted(t: Bytes, s: Bytes)
    requires t <= s && ParseText(s).status.None? && 100 <= |t|
    ensures ParseText(t).status.None?
    ensures ParseText(t).verb == ParseText(s).verb && ParseText(t).uri == ParseText(s).uri
  {
    AcceptedIs(s);
    var l := MatchLine(s).value;
    MatchLineIsLine(s);
    LineSame(t, s, l);
    WelcomeIs(t, l);
    SameWelcome(t, s);
  }

  /** Lines of a request head that the server accepts. */
  ghost predicate Valid(lines: Bytes) {
    Lines(lines) && ParseText(lines).status.None?
  }

  /** The verdict on a head with more text behind it is the verdict on the head alone, unless
      that text has headers. */
  lemma HeadAlone(lines: Bytes, x: Bytes)
    requires EndsLine(lines) && ParseText(lines).status.None?
    ensures var v, w, more := ParseText(lines + x), ParseText(lines), Headers(lines + x, |lines|);
            && v.status == None && v.verb == w.verb && v.uri == w.uri && 2 <= w.start <= |lines| + 2
            && (more == [] ==> v == w)
            && v.start == HeadersEnd(w.start - 2, more) + 2
  {
    SameWelcome(lines, lines + x);
    var a := MatchLine(lines).value.minor + 2;
    HeadersSplit(lines, x, a);
    HeadersBound(lines, a);
    EndOfBoth(a, Headers(lines, a), Headers(lines + x, |lines|));
  }

  /** For any text `t` behind a head: without header-shaped text the verdict is that on the head
      alone, otherwise the message seems to start inside `t`. */
  lemma HeadRead(lines: Bytes, t: Bytes)
    requires EndsLine(lines) && ParseText(lines).status.None?
    ensures var v, w := ParseText(Head(lines) + t), ParseText(lines);
            && v.status == None && v.verb == w.verb && v.uri == w.uri && w.start <= |Head(lines)|
            && (!HasHeader(t) ==> v == w)
            && (HasHeader(t) ==> v.start > |Head(lines)|)
  {
    var x := CRLF + t;
    var s := lines + x;
    assert Head(lines) + t == s;
    HeadAlone(lines, x);
    AfterHead(lines, t);
    HeadersBound(s, |lines|);
    EndIndependent(ParseText(lines).start - 2, |lines|, Headers(s, |lines|));
  }

  lemma StartInHead(lines: Bytes)
    requires ParseText(lines).status.None?
    ensures ParseText(lines).start <= |Head(lines)|
  {
    AcceptedIs(lines);
    HeadersBound(lines, MatchLine(lines).value.minor + 2);
  }

  lemma EndIndependent(a: nat, b: nat, hs: seq<Header>)
    ensures hs != [] ==> HeadersEnd(a, hs) == HeadersEnd(b, hs)
  {
  }
}
