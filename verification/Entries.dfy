/** Heads that are a request line and a list of headers the pattern takes: nothing is missed, and
    so exactly header-shaped text, or a head longer than the buffer, can spoil a body. */
module Entries {
  import opened Options
  import opened CStrings
  import opened Messages
  import opened Numbers
  import opened Http
  import opened Connection
  import opened Heads
  import opened Bodies

  /** A header with the one blank between colon and value. */
  datatype Entry = Entry(key: Bytes, space: char, value: Bytes)

  ghost predicate Good(e: Entry) {
    && 1 <= |e.key| <= 128 && (forall i :: 0 <= i < |e.key| ==> KeyChar(e.key[i]))
    && Space(e.space)
    && 1 <= |e.value| <= 128 && (forall i :: 0 <= i < |e.value| ==> ValueChar(e.value[i]))
  }

  ghost predicate AllGood(es: seq<Entry>) { forall i :: 0 <= i < |es| ==> Good(es[i]) }

  function EntryText(e: Entry): Bytes { e.key + [':', e.space] + e.value + CRLF }

  /** A request line and headers. */
  function Listed(line: Bytes, es: seq<Entry>): Bytes {
    if es == [] then line else Listed(line, es[..|es| - 1]) + EntryText(es[|es| - 1])
  }

  /** The headers as the header loop sees them. */
  function Found(line: Bytes, es: seq<Entry>): seq<Header> {
    if es == [] then []
    else Found(line, es[..|es| - 1]) + [Header(es[|es| - 1].key, es[|es| - 1].value, |Listed(line, es)|)]
  }

  lemma EntryIsLines(e: Entry)
    requires Good(e)
    ensures Lines(EntryText(e))
  {
    var t, k := EntryText(e), |e.key|;
    assert forall i :: 0 <= i < k ==> t[i] == e.key[i];
    assert t[k] == ':' && t[k + 1] == e.space;
    assert forall i :: 0 <= i < |e.value| ==> t[k + 2 + i] == e.value[i];
    forall i | 0 <= i < |t| - 2 ensures t[i] != NUL && (t[i] == '\r' ==> t[i + 1] != '\n') {
      if k + 2 <= i {
        assert t[i] == e.value[i - k - 2];
      } else if i == k + 1 {
        assert t[i + 1] == e.value[0];
      }
    }
  }

  /** Behind any text, an entry is found as the one header it is. */
  lemma EntryFound(pre: Bytes, e: Entry)
    requires Good(e)
    ensures NextHeader(pre + EntryText(e), |pre|) == Some(Header(e.key, e.value, |pre + EntryText(e)|))
  {
    var s, k := pre + EntryText(e), |pre| + |e.key|;
    var v := k + 2 + |e.value|;
    assert s[|pre|..k] == e.key && s[k + 2..v] == e.value;
    assert forall i :: |pre| <= i < k ==> s[i] == e.key[i - |pre|];
    assert forall i :: k + 2 <= i < v ==> s[i] == e.value[i - k - 2];
    assert s[k] == ':' && s[k + 1] == e.space && s[v] == '\r' && s[v + 1] == '\n';
    FieldAtExact(s, Field(|pre|, k, v));
  }

  lemma EntryFoundBefore(pre: Bytes, e: Entry, x: Bytes)
    requires Good(e)
    ensures NextHeader(pre + EntryText(e) + x, |pre|) == Some(Header(e.key, e.value, |pre + EntryText(e)|))
  {
    EntryFound(pre, e);
    assert EndsLine(pre + EntryText(e));
    NextSame(pre + EntryText(e), x, |pre|);
  }

  lemma {:induction false} ListIsLines(line: Bytes, es: seq<Entry>)
    requires Lines(line) && AllGood(es)
    ensures Lines(Listed(line, es)) && line <= Listed(line, es)
  {
    if es != [] {
      ListIsLines(line, es[..|es| - 1]);
      EntryIsLines(es[|es| - 1]);
      MoreLines(Listed(line, es[..|es| - 1]), EntryText(es[|es| - 1]));
    }
  }

  lemma NoHeadersAtEnd(s: Bytes)
    ensures Headers(s, |s|) == []
  {
  }

  lemma OneMore(t: Bytes, e: Entry, a: nat)
    requires EndsLine(t) && a <= |t| && Good(e)
    ensures Headers(t + EntryText(e), a) == Headers(t, a) + [Header(e.key, e.value, |t + EntryText(e)|)]
  {
    var s := t + EntryText(e);
    HeadersSplit(t, EntryText(e), a);
    EntryFound(t, e);
    HeadersUnfold(s, |t|, Header(e.key, e.value, |s|));
    NoHeadersAtEnd(s);
  }

  /** The header loop goes through exactly the list. */
  lemma {:induction false} ListFound(line: Bytes, es: seq<Entry>)
    requires Lines(line) && AllGood(es)
    ensures |line| <= |Listed(line, es)| && Headers(Listed(line, es), |line|) == Found(line, es)
    ensures HeadersEnd(|line|, Found(line, es)) == |Listed(line, es)|
  {
    if es == [] {
      NoHeadersAtEnd(line);
    } else {
      var init := es[..|es| - 1];
      ListFound(line, init);
      ListIsLines(line, init);
      OneMore(Listed(line, init), es[|es| - 1], |line|);
    }
  }

  /** A request line the server accepts, with nothing behind it. */
  ghost predicate OnlyLine(line: Bytes) {
    Lines(line) && ParseText(line).status.None? && MatchLine(line).Some? && MatchLine(line).value.minor + 2 == |line|
  }

  /** What is read off such a head: method and URI of the line, the values of the last
      Request-Id and Content-Length of the list, and a message that starts behind the head. */
  lemma ListRead(line: Bytes, es: seq<Entry>)
    requires OnlyLine(line) && AllGood(es)
    ensures var lines, v, w := Listed(line, es), ParseText(Listed(line, es)), ParseText(line);
            && Valid(lines) && Whole(lines) && v.verb == w.verb && v.uri == w.uri
            && v.id == IdOf(Found(line, es), "0") && v.length == LengthOf(Found(line, es), 0)
  {
    ListIsLines(line, es);
    SameWelcome(line, Listed(line, es));
    ListFound(line, es);
  }

  /** For every such PUT whose last Content-Length is the size of its body: the body is stored
      under every way to cut up the stream, if and only if the head fits the buffer and no
      header-shaped text can be read with it; or the head does not fit, and the body happens to
      repeat what is mistaken for it. */
  lemma ListStoresBody(line: Bytes, es: seq<Entry>, body: Bytes)
    requires OnlyLine(line) && AllGood(es) && LengthOf(Found(line, es), 0) == |body|
    ensures var lines := Listed(line, es);
            var head := Head(lines);
            AlwaysStored(head, body) <==>
              if |head| <= BUFFER then !HasHeader(CString(Early(head, body))) else BodySafe(lines, body)
  {
    ListRead(line, es);
    PutAlwaysStoresBody(Listed(line, es), body);
    if |Head(Listed(line, es))| <= BUFFER {
      WholeIsSafe(Listed(line, es), body);
    }
  }

  lemma ListedStep(line: Bytes, es: seq<Entry>, e: Entry)
    ensures Listed(line, es + [e]) == Listed(line, es) + EntryText(e)
  {
    assert (es + [e])[..|es|] == es;
  }

  lemma FoundStep(line: Bytes, es: seq<Entry>, e: Entry)
    ensures Found(line, es + [e]) == Found(line, es) + [Header(e.key, e.value, |Listed(line, es + [e])|)]
  {
    assert (es + [e])[..|es|] == es;
  }

  /** What one more header does to the size and to the values read. */
  lemma OneMoreEntry(line: Bytes, es: seq<Entry>, e: Entry)
    requires AllGood(es) && Good(e)
    ensures AllGood(es + [e]) && |Listed(line, es + [e])| == |Listed(line, es)| + |e.key| + |e.value| + 4
    ensures LengthOf(Found(line, es + [e]), 0)
            == if e.key == LENGTH_KEY then Signed(Strtoull(e.value)) else LengthOf(Found(line, es), 0)
    ensures IdOf(Found(line, es + [e]), "0") == if e.key == ID_KEY then e.value else IdOf(Found(line, es), "0")
  {
    var h := Header(e.key, e.value, |Listed(line, es + [e])|);
    ListedStep(line, es, e);
    FoundStep(line, es, e);
    LastStep(Found(line, es), h, LENGTH_KEY);
    LastStep(Found(line, es), h, ID_KEY);
  }

  /** The two header names the server knows, and what it takes for granted without them. */
  lemma HeaderNames(line: Bytes, es: seq<Entry>, id: Bytes, n: nat)
    requires OnlyLine(line) && AllGood(es) && n < SSIZE
    requires Good(Entry("Request-Id", ' ', id)) && Good(Entry("Content-Length", ' ', Dec(n)))
    ensures ParseText(line).id == "0" && ParseText(line).length == 0
    ensures ParseText(Listed(line, es + [Entry("Request-Id", ' ', id)])).id == id
    ensures ParseText(Listed(line, es + [Entry("Content-Length", ' ', Dec(n))])).length == n
  {
    ListRead(line, []);
    IdNameRead(line, es, Entry("Request-Id", ' ', id));
    LengthNameRead(line, es, Entry("Content-Length", ' ', Dec(n)), n);
  }

  lemma IdNameRead(line: Bytes, es: seq<Entry>, e: Entry)
    requires OnlyLine(line) && AllGood(es) && Good(e) && e.key == "Request-Id"
    ensures ParseText(Listed(line, es + [e])).id == e.value
  {
    OneMoreEntry(line, es, e);
    ListRead(line, es + [e]);
  }

  lemma LengthNameRead(line: Bytes, es: seq<Entry>, e: Entry, n: nat)
    requires OnlyLine(line) && AllGood(es) && Good(e) && e.key == "Content-Length" && e.value == Dec(n) && n < SSIZE
    ensures ParseText(Listed(line, es + [e])).length == n
  {
    LengthRoundTrip(n);
    OneMoreEntry(line, es, e);
    ListRead(line, es + [e]);
  }

  // ----- The bounds of the header pattern ---------------------------------------------------------------

  /** Key up to `k`, value from `k + 2` up to `v`, of any size. */
  ghost predicate IsEntry(s: Bytes, k: nat, v: nat) {
    && k + 2 <= v && |s| == v + 2 && (forall i :: 0 <= i < k ==> KeyChar(s[i])) && s[k] == ':' && Space(s[k + 1])
    && (forall i :: k + 2 <= i < v ==> ValueChar(s[i])) && s[v] == '\r' && s[v + 1] == '\n'
  }

  lemma EntryIs(e: Entry)
    requires (forall i :: 0 <= i < |e.key| ==> KeyChar(e.key[i])) && Space(e.space)
    requires forall i :: 0 <= i < |e.value| ==> ValueChar(e.value[i])
    ensures IsEntry(EntryText(e), |e.key|, |e.key| + 2 + |e.value|)
  {
    var s, k := EntryText(e), |e.key|;
    assert forall i :: 0 <= i < k ==> s[i] == e.key[i];
    assert forall i :: k + 2 <= i < k + 2 + |e.value| ==> s[i] == e.value[i - k - 2];
  }

  /** Only the colon between key and value can be that of a match, and it takes the whole value. */
  lemma MatchInEntry(s: Bytes, k: nat, v: nat, f: Field)
    requires IsEntry(s, k, v) && IsField(s, f)
    ensures f.key == k && f.value == v
  {
    assert ValueChar(s[f.key + 2]);
  }

  /** A value of more than 128 characters is not taken at all. */
  lemma LongValueIsNotTaken(e: Entry)
    requires (forall i :: 0 <= i < |e.key| ==> KeyChar(e.key[i])) && Space(e.space)
    requires |e.value| > 128 && forall i :: 0 <= i < |e.value| ==> ValueChar(e.value[i])
    ensures !HasHeader(EntryText(e))
  {
    EntryIs(e);
    if HasHeader(EntryText(e)) {
      FindFieldIsField(EntryText(e), 0);
      MatchInEntry(EntryText(e), |e.key|, |e.key| + 2 + |e.value|, FindField(EntryText(e), 0).value);
    }
  }

  lemma LongKeyFound(s: Bytes, k: nat, v: nat)
    requires IsEntry(s, k, v) && k >= 128 && 1 <= v - (k + 2) <= 128
    ensures FindField(s, 0) == Some(Field(k - 128, k, v))
  {
    var g := Field(k - 128, k, v);
    assert IsField(s, g);
    FindFieldLeftmost(s, 0, g);
    MatchInEntry(s, k, v, FindField(s, 0).value);
  }

  /** Of a key of more than 128 characters the last 128 are taken. */
  lemma LongKeyIsCut(e: Entry)
    requires |e.key| >= 128 && (forall i :: 0 <= i < |e.key| ==> KeyChar(e.key[i])) && Space(e.space)
    requires 1 <= |e.value| <= 128 && forall i :: 0 <= i < |e.value| ==> ValueChar(e.value[i])
    ensures NextHeader(EntryText(e), 0) == Some(Header(e.key[|e.key| - 128..], e.value, |EntryText(e)|))
  {
    var s, k := EntryText(e), |e.key|;
    var g := Field(k - 128, k, k + 2 + |e.value|);
    EntryIs(e);
    LongKeyFound(s, k, g.value);
    assert s[k - 128..k] == e.key[k - 128..] && s[k + 2..g.value] == e.value;
  }
}
