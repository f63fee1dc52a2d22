/** The lines of the audit log as src/log.c prints them and the checkers take them apart. */
module AuditLine {
  import opened Options
  import opened Messages
  import opened Numbers
  import opened LockPath
  import opened Http

  function Oper(verb: Verb): Bytes {
    match verb
    case GET => "GET"
    case PUT => "PUT"
    case UNSUPPORTED => "UNSUPPORTED"
  }

  /** log_audit. */
  function Line(verb: Verb, uri: Bytes, status: nat, id: Bytes): Bytes {
    Oper(verb) + "," + uri + "," + Dec(status) + "," + id + "\n"
  }

  // ----- str.strip and str.split -----------------------------------------------------------------

  function StripLeft(s: Bytes): Bytes {
    if s != "" && Space(s[0]) then StripLeft(s[1..]) else s
  }

  function StripRight(s: Bytes): Bytes {
    if s != "" && Space(s[|s| - 1]) then StripRight(s[..|s| - 1]) else s
  }

  function Strip(s: Bytes): Bytes { StripRight(StripLeft(s)) }

  function UpTo(s: Bytes, c: char): (i: nat)
    ensures i <= |s| && c !in s[..i] && (i < |s| ==> s[i] == c)
  {
    if s == "" || s[0] == c then 0
    else
      var i := UpTo(s[1..], c);
      assert s[..i + 1] == [s[0]] + s[1..][..i];
      i + 1
  }

  function Split(s: Bytes, c: char): seq<Bytes>
    decreases |s|
  {
    var i := UpTo(s, c);
    if i == |s| then [s] else [s[..i]] + Split(s[i + 1..], c)
  }

  lemma UpToIs(a: Bytes, c: char, rest: Bytes)
    requires c !in a
    ensures UpTo(a + [c] + rest, c) == |a| && UpTo(a, c) == |a|
  {
    var s := a + [c] + rest;
    assert s[|a|] == c && forall i :: 0 <= i < |a| ==> s[i] == a[i];
  }

  lemma SplitFirst(a: Bytes, c: char, rest: Bytes)
    requires c !in a
    ensures Split(a + [c] + rest, c) == [a] + Split(rest, c) && Split(a, c) == [a]
  {
    var s := a + [c] + rest;
    UpToIs(a, c, rest);
    assert s[..|a|] == a && s[|a| + 1..] == rest;
  }

  lemma SplitTwo(d: Bytes, e: Bytes, s: Bytes)
    requires ',' !in d && ',' !in e && s == d + [','] + e
    ensures Split(s, ',') == [d, e]
  {
    SplitFirst(d, ',', e);
    SplitFirst(e, ',', "");
  }

  lemma SplitFour(a: Bytes, b: Bytes, d: Bytes, e: Bytes, t: Bytes, u: Bytes)
    requires ',' !in a && ',' !in b && ',' !in d && ',' !in e && t == d + [','] + e && u == b + [','] + t
    ensures Split(a + [','] + u, ',') == [a, b, d, e]
  {
    SplitTwo(d, e, t);
    SplitFirst(b, ',', t);
    SplitFirst(a, ',', u);
  }

  lemma Regrouped(a: Bytes, b: Bytes, d: Bytes, e: Bytes)
    ensures a + "," + b + "," + d + "," + e == a + [','] + (b + [','] + (d + [','] + e))
  {
  }

  /** The newline at the end is all that is stripped. */
  lemma StripLine(text: Bytes)
    requires text != "" && !Space(text[0]) && !Space(text[|text| - 1])
    ensures Strip(text + "\n") == text
  {
    var s := text + "\n";
    assert StripLeft(s) == s;
    assert s[..|s| - 1] == text;
    assert StripRight(text) == text;
  }

  // ----- The round trip ----------------------------------------------------------------------------

  /** The fields of a line, as parse_op_line and validate_order split it. */
  function Fields(line: Bytes): seq<Bytes> { Split(Strip(line), ',') }

  /** A URI and an id as conn_parse leaves them: admitted characters, perhaps no URI, never an
      empty id. */
  ghost predicate Loggable(uri: Bytes, id: Bytes) {
    && (forall i :: 0 <= i < |uri| ==> UriChar(uri[i]))
    && id != "" && (forall i :: 0 <= i < |id| ==> ValueChar(id[i]))
  }

  /** Every line is taken apart into what was printed, and its status is read back. */
  lemma LineRoundTrip(verb: Verb, uri: Bytes, status: nat, id: Bytes)
    requires Loggable(uri, id)
    ensures Fields(Line(verb, uri, status, id)) == [Oper(verb), uri, Dec(status), id]
    ensures Oper(verb) == if verb == GET then "GET" else if verb == PUT then "PUT" else "UNSUPPORTED"
    ensures AllDigits(Dec(status)) && ToNat(Dec(status)) == status
  {
    var text := Oper(verb) + "," + uri + "," + Dec(status) + "," + id;
    assert text[0] == Oper(verb)[0] && text[|text| - 1] == id[|id| - 1];
    StripLine(text);
    Regrouped(Oper(verb), uri, Dec(status), id);
    var t := Dec(status) + [','] + id;
    SplitFour(Oper(verb), uri, Dec(status), id, t, uri + [','] + t);
    DecToNat(status);
  }

  lemma {:induction false} ValuesAreGood(s: string, from: nat, i: nat)
    requires from <= |s| && i < |Headers(s, from)|
    ensures var v := Headers(s, from)[i].value; v != "" && forall j :: 0 <= j < |v| ==> ValueChar(v[j])
    decreases |s| - from
  {
    var f := FindField(s, from).value;
    FindFieldIsField(s, from);
    if i > 0 {
      ValuesAreGood(s, NextHeader(s, from).value.end, i - 1);
    }
  }

  lemma {:induction false} LastIsOne(hs: seq<Header>, key: string) returns (i: nat)
    requires Last(hs, key).Some?
    ensures i < |hs| && Last(hs, key) == Some(hs[i].value)
  {
    if hs[|hs| - 1].key == key {
      i := |hs| - 1;
    } else {
      i := LastIsOne(hs[..|hs| - 1], key);
    }
  }

  /** Whatever text a client sends, accepted or not, its line can be taken apart. */
  lemma ParsedIsLoggable(s: string)
    ensures Loggable(ParseText(s).uri, ParseText(s).id)
  {
    if MatchLine(s).Some? {
      MatchLineIsLine(s);
      var from := MatchLine(s).value.minor + 2;
      IdIsGood(s, from);
    }
  }

  lemma IdIsGood(s: string, from: nat)
    requires from <= |s|
    ensures var id := IdOf(Headers(s, from), "0"); id != "" && forall j :: 0 <= j < |id| ==> ValueChar(id[j])
  {
    if Last(Headers(s, from), ID_KEY).Some? {
      var i := LastIsOne(Headers(s, from), ID_KEY);
      ValuesAreGood(s, from, i);
    }
  }

  /** The line of any request, whatever status it got, gives the checkers its method, URI, status
      and id back. */
  lemma AuditedReadBack(s: string, status: nat)
    ensures var v := ParseText(s);
            Fields(Line(v.verb, v.uri, status, v.id)) == [Oper(v.verb), v.uri, Dec(status), v.id]
  {
    ParsedIsLoggable(s);
    LineRoundTrip(ParseText(s).verb, ParseText(s).uri, status, ParseText(s).id);
  }
}
