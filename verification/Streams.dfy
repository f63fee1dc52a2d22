/** The byte pumps of src/util.c against descriptors that may transfer any part of what is
    asked, be interrupted any finite number of times, or fail. */
module Streams {
  import opened Options
  import opened Messages

  const CHUNK: nat := 4096      // BUFFER_SIZE

  /** What the next system call on a descriptor does out of the ordinary. A descriptor with
      no quirks left transfers as much as it can. */
  datatype Quirk = Interrupted | Broken(timeout: bool) | Partial(n: nat)

  /** `last` is what the last successful read(2) returned. */
  datatype Source = Source(data: Bytes, quirks: seq<Quirk>, last: nat)
  datatype Sink = Sink(written: Bytes, quirks: seq<Quirk>)

  datatype Outcome = Eintr | Error(timeout: bool) | Moved(n: nat)

  function Min(a: nat, b: nat): nat { if a < b then a else b }

  /** The first error a descriptor will report, past all interrupted and partial transfers, and
      whether it is a timeout. */
  function FirstError(quirks: seq<Quirk>): Option<bool> {
    if quirks == [] then None
    else if quirks[0].Broken? then Some(quirks[0].timeout)
    else FirstError(quirks[1..])
  }

  predicate Fails(quirks: seq<Quirk>) { FirstError(quirks).Some? }

  /** read(2): zero bytes only at the end of the data. */
  function Read(s: Source, want: nat): (r: (Outcome, Source))
    ensures r.0.Moved? ==> r.0.n <= want && r.0.n <= |s.data| && r.1.data == s.data[r.0.n..] && r.1.last == r.0.n
    ensures r.0.Moved? && r.0.n == 0 ==> want == 0 || s.data == ""
    ensures !r.0.Moved? ==> r.1.data == s.data && s.quirks != []
    ensures r.1.quirks == if s.quirks == [] then [] else s.quirks[1..]
    ensures r.0.Error? ==> s.quirks[0] == Broken(r.0.timeout)
  {
    var all := Min(want, |s.data|);
    if s.quirks == [] then (Moved(all), Source(s.data[all..], [], all))
    else
      var rest := s.quirks[1..];
      match s.quirks[0]
      case Interrupted => (Eintr, s.(quirks := rest))
      case Broken(timeout) => (Error(timeout), s.(quirks := rest))
      case Partial(n) =>
        var k := Min(all, if n == 0 then 1 else n);
        (Moved(k), Source(s.data[k..], rest, k))
  }

  /** write(2): may take nothing. */
  function Write(d: Sink, bytes: Bytes): (r: (Outcome, Sink))
    ensures r.0.Moved? ==> r.0.n <= |bytes| && r.1.written == d.written + bytes[..r.0.n]
    ensures !r.0.Moved? ==> r.1.written == d.written && d.quirks != []
    ensures r.0.Moved? && r.0.n < |bytes| ==> d.quirks != []
    ensures r.1.quirks == if d.quirks == [] then [] else d.quirks[1..]
    ensures r.0.Error? ==> d.quirks[0] == Broken(r.0.timeout)
  {
    if d.quirks == [] then (Moved(|bytes|), d.(written := d.written + bytes[..|bytes|]))
    else
      var rest := d.quirks[1..];
      match d.quirks[0]
      case Interrupted => (Eintr, d.(quirks := rest))
      case Broken(timeout) => (Error(timeout), d.(quirks := rest))
      case Partial(n) =>
        var k := Min(n, |bytes|);
        (Moved(k), Sink(d.written + bytes[..k], rest))
  }

  /** All of `buffer` is written, or a prefix of it and -1. */
  method WriteAll(dst: Sink, buffer: Bytes) returns (rc: int, dst': Sink)
    ensures rc == |buffer| || rc == -1
    ensures rc >= 0 ==> dst'.written == dst.written + buffer
    ensures rc < 0 ==> Fails(dst.quirks) && dst.written <= dst'.written <= dst.written + buffer
    ensures rc >= 0 ==> FirstError(dst'.quirks) == FirstError(dst.quirks)
  {
    var total := 0;
    dst' := dst;
    while total < |buffer|
      invariant 0 <= total <= |buffer|
      invariant dst'.written == dst.written + buffer[..total]
      invariant FirstError(dst'.quirks) == FirstError(dst.quirks)
      decreases |dst'.quirks|, |buffer| - total
    {
      var (out, next) := Write(dst', buffer[total..]);
      dst' := next;
      match out
      case Eintr =>
      case Error(_) => return -1, dst';
      case Moved(n) =>
        assert buffer[..total + n] == buffer[..total] + buffer[total..][..n];
        total := total + n;
    }
    return total, dst';
  }

  /** The do-while around read(2) that retries after a signal. */
  method ReadRetry(src: Source, want: nat) returns (out: Outcome, src': Source)
    ensures !out.Eintr?
    ensures out.Moved? ==> out.n <= want && out.n <= |src.data| && src'.data == src.data[out.n..] && src'.last == out.n
    ensures out.Moved? && out.n == 0 ==> want == 0 || src.data == ""
    ensures out.Error? ==> FirstError(src.quirks) == Some(out.timeout) && src'.data == src.data
    ensures out.Moved? ==> FirstError(src'.quirks) == FirstError(src.quirks)
  {
    src' := src;
    while true
      invariant src'.data == src.data && FirstError(src'.quirks) == FirstError(src.quirks)
      decreases |src'.quirks|
    {
      var r := Read(src', want);
      src' := r.1;
      if !r.0.Eintr? {
        return r.0, src';
      }
    }
  }

  /** Success moves exactly the first min(nbytes, bytes to the end) bytes; failure leaves a
      prefix of them written. */
  method PassBytes(src: Source, dst: Sink, nbytes: nat) returns (rc: int, src': Source, dst': Sink)
    ensures rc == -1 || rc == Min(nbytes, |src.data|)
    ensures rc >= 0 ==> dst'.written == dst.written + src.data[..rc] && src'.data == src.data[rc..]
    ensures rc < 0 ==> Fails(src.quirks) || Fails(dst.quirks)
    ensures rc < 0 ==> dst.written <= dst'.written <= dst.written + src.data[..Min(nbytes, |src.data|)]
  {
    var total := 0;
    src', dst' := src, dst;
    while total < nbytes
      invariant 0 <= total <= Min(nbytes, |src.data|)
      invariant dst'.written == dst.written + src.data[..total]
      invariant src'.data == src.data[total..]
      invariant FirstError(src'.quirks) == FirstError(src.quirks) && FirstError(dst'.quirks) == FirstError(dst.quirks)
      decreases nbytes - total
    {
      var want := Min(nbytes - total, CHUNK);
      var before := src'.data;
      var out;
      out, src' := ReadRetry(src', want);
      if out.Error? {
        return -1, src', dst';
      }
      if out.n == 0 {
        break;
      }
      var buf := before[..out.n];
      assert src.data[..total + out.n] == src.data[..total] + buf;
      ghost var whole := src.data[..Min(nbytes, |src.data|)];
      assert whole == src.data[..total + out.n] + whole[total + out.n..];
      var written;
      written, dst' := WriteAll(dst', buf);
      if written < 0 {
        return -1, src', dst';
      }
      total := total + out.n;
    }
    return total, src', dst';
  }

  // ----- read_until ---------------------------------------------------------------------------

  /** `needle` starts at position `i`. */
  predicate OccursAt(s: Bytes, i: int, needle: Bytes) {
    0 <= i <= |s| - |needle| && s[i..i + |needle|] == needle
  }

  ghost predicate Contains(s: Bytes, needle: Bytes) {
    exists i :: OccursAt(s, i, needle)
  }

  /** How much of a stream read_until may return: the buffer is full, the stream is at its
      end, or the needle is there. */
  ghost predicate Cut(data: Bytes, k: nat, nbytes: nat, needle: Bytes) {
    && k <= nbytes && k <= |data|
    && (k == nbytes || k == |data| || (needle != "" && Contains(data[..k], needle)))
  }

  /** The needle was not among the bytes held before the last read, which returned `last`. */
  ghost predicate SoughtBefore(data: Bytes, k: nat, last: nat, needle: Bytes) {
    last <= k <= |data| && (needle != "" ==> !Contains(data[..k - last], needle))
  }

  /** The search loop over the buffer. */
  method Find(buf: array<char>, total: nat, needle: Bytes) returns (found: bool)
    requires total <= buf.Length && needle != ""
    ensures found <==> Contains(buf[..total], needle)
  {
    ghost var held := buf[..total];
    var i := 0;
    while i + |needle| <= total
      invariant 0 <= i
      invariant forall j :: 0 <= j < i ==> !OccursAt(held, j, needle)
    {
      assert held[i..i + |needle|] == buf[i..i + |needle|];
      if buf[i..i + |needle|] == needle {
        assert OccursAt(held, i, needle);
        return true;
      }
      i := i + 1;
    }
    return false;
  }

  method ReadUntil(src: Source, buf: array<char>, nbytes: nat, needle: Bytes)
    returns (rc: int, timeout: bool, src': Source)
    requires nbytes <= buf.Length
    modifies buf
    ensures -1 <= rc <= nbytes
    ensures rc >= 0 ==> Cut(src.data, rc, nbytes, needle) && buf[..rc] == src.data[..rc] && src'.data == src.data[rc..]
    ensures rc > 0 ==> SoughtBefore(src.data, rc, src'.last, needle)
    ensures rc < 0 ==> FirstError(src.quirks) == Some(timeout)
    ensures rc >= 0 ==> FirstError(src'.quirks) == FirstError(src.quirks)
    ensures buf[nbytes..] == old(buf[nbytes..])
  {
    var total := 0;
    src', timeout := src, false;
    while total < nbytes
      invariant 0 <= total <= nbytes && total <= |src.data|
      invariant buf[..total] == src.data[..total] && src'.data == src.data[total..]
      invariant needle != "" ==> !Contains(src.data[..total], needle)
      invariant total > 0 ==> SoughtBefore(src.data, total, src'.last, needle)
      invariant FirstError(src'.quirks) == FirstError(src.quirks)
      invariant buf[nbytes..] == old(buf[nbytes..])
      decreases nbytes - total
    {
      var before := src'.data;
      var out;
      out, src' := ReadRetry(src', nbytes - total);
      if out.Error? {
        return -1, out.timeout, src';
      }
      if out.n == 0 {
        break;
      }
      forall i | 0 <= i < out.n {
        buf[total + i] := before[i];
      }
      total := total + out.n;
      assert buf[..total] == src.data[..total];
      if needle != "" && total >= |needle| {
        var found := Find(buf, total, needle);
        if found {
          return total, false, src';
        }
      }
    }
    return total, false, src';
  }
}
