/** The two patterns of src/connection.c and what conn_parse reads off a request text. */
module Http {
  import opened Options
  import opened Messages
  import opened Numbers
  import opened LockPath

  predicate Alpha(c: char) { 'a' <= c <= 'z' || 'A' <= c <= 'Z' }
  predicate KeyChar(c: char) { Alpha(c) || Digit(c) || c == '.' || c == '-' }
  predicate ValueChar(c: char) { KeyChar(c) || c == ':' || c == '/' || c == '*' }
  predicate Space(c: char) { c == ' ' || '\t' <= c <= '\r' }

  /** The bracket expressions of the two patterns by character code. */
  lemma Alphabets(c: char)
    ensures var n := c as int;
            var letter, digit := 65 <= n <= 90 || 97 <= n <= 122, 48 <= n <= 57;
            && (Alpha(c) <==> letter) && (Digit(c) <==> digit)
            && (KeyChar(c) <==> letter || digit || n == 45 || n == 46)
            && (ValueChar(c) <==> letter || digit || n == 42 || 45 <= n <= 47 || n == 58)
            && (UriChar(c) <==> letter || digit || 45 <= n <= 47 || n == 95)
            && (Space(c) <==> n == 32 || 9 <= n <= 13)
  {
  }

  /** Every character from `i` up to `j` satisfies `p`. */
  ghost predicate AllIn(s: string, i: int, j: int, p: char -> bool) {
    0 <= i <= j <= |s| && forall k :: i <= k < j ==> p(s[k])
  }

  /** The end of the longest stretch of `p` characters from `i`. */
  function RunEnd(s: string, i: nat, p: char -> bool): (j: nat)
    requires i <= |s|
    ensures i <= j <= |s|
    decreases |s| - i
  {
    if i < |s| && p(s[i]) then RunEnd(s, i + 1, p) else i
  }

  lemma {:induction false} RunEndSpec(s: string, i: nat, p: char -> bool)
    requires i <= |s|
    ensures AllIn(s, i, RunEnd(s, i, p), p)
    ensures RunEnd(s, i, p) < |s| ==> !p(s[RunEnd(s, i, p)])
    decreases |s| - i
  {
    if i < |s| && p(s[i]) {
      RunEndSpec(s, i + 1, p);
    }
  }

  /** A stretch that cannot go on is the longest one. */
  lemma RunEndIs(s: string, i: nat, j: nat, p: char -> bool)
    requires AllIn(s, i, j, p) && (j < |s| ==> !p(s[j]))
    ensures RunEnd(s, i, p) == j
  {
    RunEndSpec(s, i, p);
  }

  // ----- Header fields -------------------------------------------------------------------------

  /** A match of the header pattern: key up to `key`, value from `key + 2` up to `value`. */
  datatype Field = Field(start: nat, key: nat, value: nat)

  function End(f: Field): nat { f.value + 2 }

  // The header pattern read as a definition: 1 to 128 key characters, a colon, one blank,
  // 1 to 128 value characters, and the end of the line.
  ghost predicate IsField(s: string, f: Field) {
    && AllIn(s, f.start, f.key, KeyChar) && 1 <= f.key - f.start <= 128
    && f.key + 2 <= |s| && s[f.key] == ':' && Space(s[f.key + 1])
    && AllIn(s, f.key + 2, f.value, ValueChar) && 1 <= f.value - (f.key + 2) <= 128
    && f.value + 2 <= |s| && s[f.value] == '\r' && s[f.value + 1] == '\n'
  }

  /** The match starting at `i`, if there is one. */
  function FieldAt(s: string, i: nat): (r: Option<Field>)
    requires i <= |s|
    ensures r.Some? ==> r.value.start == i < r.value.key && r.value.key + 2 < r.value.value && End(r.value) <= |s|
  {
    var k := RunEnd(s, i, KeyChar);
    if !(1 <= k - i <= 128 && k + 2 <= |s| && s[k] == ':' && Space(s[k + 1])) then None
    else
      var v := RunEnd(s, k + 2, ValueChar);
      if 1 <= v - (k + 2) <= 128 && v + 2 <= |s| && s[v] == '\r' && s[v + 1] == '\n'
      then Some(Field(i, k, v)) else None
  }

  /** From a given start the pattern matches in at most one way, and that way is found. */
  lemma FieldAtExact(s: string, f: Field)
    requires f.start <= |s|
    ensures FieldAt(s, f.start) == Some(f) <==> IsField(s, f)
  {
    RunEndSpec(s, f.start, KeyChar);
    var k := RunEnd(s, f.start, KeyChar);
    if k + 2 <= |s| {
      RunEndSpec(s, k + 2, ValueChar);
    }
    if IsField(s, f) {
      RunEndIs(s, f.start, f.key, KeyChar);
      RunEndIs(s, f.key + 2, f.value, ValueChar);
    }
  }

  /** regexec from `from`: the leftmost match. */
  function FindField(s: string, from: nat): (r: Option<Field>)
    requires from <= |s|
    ensures r.Some? ==> from <= r.value.start < r.value.key && r.value.key + 2 < r.value.value && End(r.value) <= |s|
    decreases |s| - from
  {
    if from == |s| then None
    else if FieldAt(s, from).Some? then FieldAt(s, from)
    else FindField(s, from + 1)
  }

  /** The match found is a match, and nothing matches further left; if none is found, nothing
      matches at all. */
  lemma {:induction false} FindFieldLeftmost(s: string, from: nat, g: Field)
    requires from <= g.start <= |s| && IsField(s, g)
    ensures FindField(s, from).Some? && IsField(s, FindField(s, from).value)
    ensures FindField(s, from).value.start <= g.start
    ensures FindField(s, from).value.start == g.start ==> FindField(s, from).value == g
    decreases |s| - from
  {
    if FieldAt(s, from).Some? {
      FieldAtExact(s, FieldAt(s, from).value);
      FieldAtExact(s, g);
    } else {
      FieldAtExact(s, g);
      FindFieldLeftmost(s, from + 1, g);
    }
  }

  lemma {:induction false} FindFieldIsField(s: string, from: nat)
    requires from <= |s| && FindField(s, from).Some?
    ensures IsField(s, FindField(s, from).value)
    decreases |s| - from
  {
    if FieldAt(s, from).Some? {
      FieldAtExact(s, FieldAt(s, from).value);
    } else {
      FindFieldIsField(s, from + 1);
    }
  }

  /** The two captures of a match, and where it ends. */
  datatype Header = Header(key: string, value: string, end: nat)

  function Captures(s: string, f: Field): Header
    requires f.start <= f.key && f.key + 2 <= f.value && f.value <= |s|
  {
    Header(s[f.start..f.key], s[f.key + 2..f.value], End(f))
  }

  function NextHeader(s: string, from: nat): (r: Option<Header>)
    requires from <= |s|
    ensures r.Some? ==> from < r.value.end <= |s|
  {
    var f := FindField(s, from);
    if f.None? then None else Some(Captures(s, f.value))
  }

  /** The successive leftmost matches the header loop goes through. */
  function Headers(s: string, from: nat): seq<Header>
    requires from <= |s|
    decreases |s| - from
  {
    var h := NextHeader(s, from);
    if h.None? then [] else [h.value] + Headers(s, h.value.end)
  }

  /** The value of the last header named `key`. */
  function Last(hs: seq<Header>, key: string): Option<string> {
    if hs == [] then None
    else if hs[|hs| - 1].key == key then Some(hs[|hs| - 1].value)
    else Last(hs[..|hs| - 1], key)
  }

  const LENGTH_KEY: string := "Content-Length"
  const ID_KEY: string := "Request-Id"

  /** Content-Length and Request-Id after the headers `hs`, with what they were before. */
  function LengthOf(hs: seq<Header>, before: int): int {
    var v := Last(hs, LENGTH_KEY);
    if v.Some? then Signed(Strtoull(v.value)) else before
  }

  function IdOf(hs: seq<Header>, before: string): string {
    var v := Last(hs, ID_KEY);
    if v.Some? then v.value else before
  }

  function HeadersEnd(from: nat, hs: seq<Header>): nat {
    if hs == [] then from else hs[|hs| - 1].end
  }

  lemma LastStep(hs: seq<Header>, h: Header, key: string)
    ensures Last(hs + [h], key) == if h.key == key then Some(h.value) else Last(hs, key)
  {
    assert (hs + [h])[..|hs|] == hs;
  }

  /** The header loop after `seen`: what is left to match, and the two values so far. */
  ghost predicate Scanned(s: string, from: nat, at: nat, seen: seq<Header>, len0: int, id0: string, len: int, id: string) {
    && from <= |s| && at <= |s|
    && Headers(s, from) == seen + Headers(s, at)
    && HeadersEnd(from, seen) == at
    && len == LengthOf(seen, len0) && id == IdOf(seen, id0)
  }

  lemma ScanStep(s: string, from: nat, at: nat, seen: seq<Header>, len0: int, id0: string, len: int, id: string, h: Header)
    requires Scanned(s, from, at, seen, len0, id0, len, id) && NextHeader(s, at) == Some(h)
    ensures Scanned(s, from, h.end, seen + [h], len0, id0,
                    if h.key == LENGTH_KEY then Signed(Strtoull(h.value)) else len,
                    if h.key != LENGTH_KEY && h.key == ID_KEY then h.value else id)
  {
    assert Headers(s, from) == (seen + [h]) + Headers(s, h.end);
    LastStep(seen, h, LENGTH_KEY);
    LastStep(seen, h, ID_KEY);
  }

  // ----- The request line -----------------------------------------------------------------------

  /** Ends of the captures: method, URI, major and minor version. */
  datatype Line = Line(method_: nat, uri: nat, major: nat, minor: nat)

  // The fixed texts of the pattern, character by character.
  predicate Slash(s: string, i: nat) { i + 2 <= |s| && s[i] == ' ' && s[i + 1] == '/' }
  predicate LineEnd(s: string, i: nat) { i + 2 <= |s| && s[i] == '\r' && s[i + 1] == '\n' }
  predicate Protocol(s: string, i: nat) {
    i + 6 <= |s| && s[i] == ' ' && s[i + 1] == 'H' && s[i + 2] == 'T' && s[i + 3] == 'T' && s[i + 4] == 'P' && s[i + 5] == '/'
  }

  // The request-line pattern read as a definition, in two halves; the character between the
  // two version numbers may be any.
  ghost predicate IsTarget(s: string, l: Line) {
    && AllIn(s, 0, l.method_, Alpha) && 1 <= l.method_ <= 8
    && Slash(s, l.method_)
    && AllIn(s, l.method_ + 2, l.uri, UriChar) && 1 <= l.uri - (l.method_ + 2) <= 63
    && Protocol(s, l.uri)
  }

  ghost predicate IsVersion(s: string, l: Line) {
    && AllIn(s, l.uri + 6, l.major, Digit) && 1 <= l.major - (l.uri + 6) <= 2
    && AllIn(s, l.major + 1, l.minor, Digit) && 1 <= l.minor - (l.major + 1) <= 2
    && LineEnd(s, l.minor)
  }

  ghost predicate IsLine(s: string, l: Line) { IsTarget(s, l) && IsVersion(s, l) }

  /** The version part with a major number of `n` digits. */
  function VersionAt(s: string, m: nat, u: nat, n: nat): (r: Option<Line>)
    requires u + 6 <= |s|
    ensures r.Some? ==> r.value.method_ == m && r.value.uri == u && r.value.major == u + 6 + n
    ensures r.Some? ==> r.value.major + 1 < r.value.minor && r.value.minor + 2 <= |s|
  {
    var a := u + 6 + n;
    if !(a + 1 <= |s| && n <= RunEnd(s, u + 6, Digit) - (u + 6)) then None
    else
      var b := RunEnd(s, a + 1, Digit);
      if 1 <= b - (a + 1) <= 2 && LineEnd(s, b) then Some(Line(m, u, a, b)) else None
  }

  /** The match of the whole line; of two ways to split the version the longer major wins. */
  function MatchLine(s: string): (r: Option<Line>)
    ensures r.Some? ==> r.value.method_ + 2 < r.value.uri < r.value.major && r.value.major + 1 < r.value.minor
    ensures r.Some? ==> r.value.minor + 2 <= |s|
  {
    var m := RunEnd(s, 0, Alpha);
    if !(1 <= m <= 8 && Slash(s, m)) then None
    else
      var u := RunEnd(s, m + 2, UriChar);
      if !(1 <= u - (m + 2) <= 63 && Protocol(s, u)) then None
      else
        var two := VersionAt(s, m, u, 2);
        if two.Some? then two else VersionAt(s, m, u, 1)
  }

  lemma VersionAtIsVersion(s: string, m: nat, u: nat, n: nat)
    requires u + 6 <= |s| && 1 <= n <= 2 && VersionAt(s, m, u, n).Some?
    ensures IsVersion(s, VersionAt(s, m, u, n).value)
  {
    RunEndSpec(s, u + 6, Digit);
    RunEndSpec(s, u + 6 + n + 1, Digit);
  }

  lemma MatchLineIsTarget(s: string)
    requires MatchLine(s).Some?
    ensures IsTarget(s, MatchLine(s).value)
  {
    RunEndSpec(s, 0, Alpha);
    RunEndSpec(s, MatchLine(s).value.method_ + 2, UriChar);
  }

  lemma MatchLineIsLine(s: string)
    requires MatchLine(s).Some?
    ensures IsLine(s, MatchLine(s).value)
  {
    var l := MatchLine(s).value;
    MatchLineIsTarget(s);
    VersionAtIsVersion(s, l.method_, l.uri, l.major - (l.uri + 6));
  }

  lemma VersionUnique(s: string, l: Line)
    requires IsLine(s, l)
    ensures VersionAt(s, l.method_, l.uri, l.major - (l.uri + 6)) == Some(l)
  {
    RunEndIs(s, l.major + 1, l.minor, Digit);
    RunEndSpec(s, l.uri + 6, Digit);
  }

  /** Two ways to split the version end at the same place. */
  lemma VersionsAgree(s: string, m: nat, u: nat)
    requires u + 6 <= |s| && VersionAt(s, m, u, 1).Some? && VersionAt(s, m, u, 2).Some?
    ensures VersionAt(s, m, u, 1).value.minor == VersionAt(s, m, u, 2).value.minor
  {
    RunEndSpec(s, u + 8, Digit);
    RunEndSpec(s, u + 9, Digit);
  }

  /** Any match fixes method, URI and the end; the one found has the longest major number. */
  lemma LineUnique(s: string, l: Line)
    requires IsLine(s, l)
    ensures MatchLine(s).Some?
    ensures var r := MatchLine(s).value;
            r.method_ == l.method_ && r.uri == l.uri && r.minor == l.minor && r.major >= l.major
  {
    RunEndIs(s, 0, l.method_, Alpha);
    RunEndIs(s, l.method_ + 2, l.uri, UriChar);
    VersionUnique(s, l);
    if VersionAt(s, l.method_, l.uri, 2).Some? && l.major == l.uri + 7 {
      VersionsAgree(s, l.method_, l.uri);
    }
  }

  /** Of all ways to match, the one with the longest major number, as regexec prefers it. */
  ghost predicate LongestLine(s: string, l: Line) {
    IsLine(s, l) && forall k :: IsLine(s, k) ==> k.major <= l.major
  }

  /** The matcher finds a match if and only if it is the one regexec prefers. */
  lemma MatchLineExact(s: string, l: Line)
    ensures MatchLine(s) == Some(l) <==> LongestLine(s, l)
  {
    if MatchLine(s) == Some(l) {
      MatchLineIsLine(s);
      forall k | IsLine(s, k) ensures k.major <= l.major {
        LineUnique(s, k);
      }
    }
    if LongestLine(s, l) {
      LineUnique(s, l);
      MatchLineIsLine(s);
    }
  }

  // ----- The verdict of conn_parse on a text -------------------------------------------------------

  /** Fields of struct Conn after parsing; `status` is the response of a request turned down. */
  datatype Verdict = Verdict(status: Option<nat>, verb: Verb, uri: string, id: string, length: int, start: nat)

  /** Only the first three letters of the method are compared. */
  function VerbOf(s: string): Verb {
    if |s| >= 3 && s[0] == 'G' && s[1] == 'E' && s[2] == 'T' then GET
    else if |s| >= 3 && s[0] == 'P' && s[1] == 'U' && s[2] == 'T' then PUT
    else UNSUPPORTED
  }

  /** The verdict on an accepted request whose headers start at `from`. */
  function Welcome(s: string, verb: Verb, uri: string, from: nat): Verdict
    requires from <= |s|
  {
    var hs := Headers(s, from);
    Verdict(None, verb, uri, IdOf(hs, "0"), LengthOf(hs, 0), HeadersEnd(from, hs) + 2)
  }

  /** The verdict once the request line matched as `l`. */
  function Judge(s: string, l: Line): Verdict
    requires l.method_ + 2 <= l.uri && l.uri < l.major && l.major + 1 < l.minor && l.minor + 2 <= |s|
  {
    var uri := s[l.method_ + 2..l.uri];
    if l.minor - (l.major + 1) > 1 then Verdict(Some(400), VerbOf(s), uri, "0", 0, 0)
    else if s[l.major + 1] != '1' then Verdict(Some(505), VerbOf(s), uri, "0", 0, 0)
    else Welcome(s, VerbOf(s), uri, l.minor + 2)
  }

  function ParseText(s: string): Verdict {
    var r := MatchLine(s);
    if r.None? then Verdict(Some(400), UNSUPPORTED, "", "0", 0, 0) else Judge(s, r.value)
  }

  /** The first three letters of the text are those of the method. */
  lemma VerbOfMethod(s: string, l: Line)
    requires IsLine(s, l)
    ensures VerbOf(s) == GET <==> "GET" <= s[..l.method_]
    ensures VerbOf(s) == PUT <==> "PUT" <= s[..l.method_]
  {
    assert s[l.method_] == ' ';
    if l.method_ >= 3 {
      assert s[..l.method_][0] == s[0] && s[..l.method_][1] == s[1] && s[..l.method_][2] == s[2];
    }
  }

  /** What is accepted and what is turned down, in terms of the patterns alone: 400 without a
      request line or with a minor version of two digits, 505 with another digit than 1. */
  lemma VerdictExact(s: string, l: Line)
    requires LongestLine(s, l)
    ensures var v := ParseText(s);
            && (v.status == Some(400) <==> l.minor > l.major + 2)
            && (v.status == Some(505) <==> l.minor == l.major + 2 && s[l.major + 1] != '1')
            && (v.status == None <==> l.minor == l.major + 2 && s[l.major + 1] == '1')
            && (v.verb == GET <==> "GET" <= s[..l.method_]) && (v.verb == PUT <==> "PUT" <= s[..l.method_])
            && v.uri == s[l.method_ + 2..l.uri] && ParsedUri(v.uri)
  {
    MatchLineExact(s, l);
    VerbOfMethod(s, l);
  }

  /** Without a match of the request-line pattern the answer is 400. */
  lemma NoLineIsBad(s: string)
    ensures (forall l :: !IsLine(s, l)) <==> MatchLine(s).None?
    ensures MatchLine(s).None? ==> ParseText(s).status == Some(400) && ParseText(s).verb == UNSUPPORTED
  {
    if MatchLine(s).Some? {
      MatchLineIsLine(s);
    }
    forall l | IsLine(s, l) ensures MatchLine(s).Some? {
      LineUnique(s, l);
    }
  }

  /** Whatever the text, an accepted request begins with a match of the whole request line, and
      its URI has 1 to 63 admitted characters. */
  lemma AcceptedRequest(s: string)
    requires ParseText(s).status.None?
    ensures ParsedUri(ParseText(s).uri)
    ensures MatchLine(s).Some? && LongestLine(s, MatchLine(s).value)
  {
    MatchLineExact(s, MatchLine(s).value);
    VerdictExact(s, MatchLine(s).value);
  }
}
