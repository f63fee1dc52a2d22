/** C strings, and the lockfile name of a URI (lock_path_for in src/httpserver.c). */
module CStrings {

  const NUL: char := '\0'

  /** The text a C function sees in a buffer: everything before the first NUL. */
  function CString(s: string): (r: string)
    ensures |r| <= |s| && r == s[..|r|] && NUL !in r
    ensures |r| < |s| ==> s[|r|] == NUL
  {
    if s == "" || s[0] == NUL then "" else [s[0]] + CString(s[1..])
  }

  /** Text without a NUL is passed over whole. */
  lemma {:induction false} CStringSkips(pre: string, rest: string)
    requires NUL !in pre
    ensures CString(pre + rest) == pre + CString(rest)
  {
    if pre == "" {
      assert pre + rest == rest;
    } else {
      assert (pre + rest)[1..] == pre[1..] + rest;
      CStringSkips(pre[1..], rest);
    }
  }

  /** Nothing behind a NUL is seen. */
  lemma CStringStops(a: string, b: string)
    requires NUL in a
    ensures CString(a + b) == CString(a) && |CString(a)| < |a|
  {
    var t := CString(a);
    assert a[..|a|] == a;
    assert a + b == t + (a[|t|..] + b);
    CStringSkips(t, a[|t|..] + b);
  }

  lemma CStringPrefix(a: string, b: string)
    requires a <= b
    ensures CString(a) <= CString(b)
  {
    var t := CString(a);
    assert b == t + b[|t|..];
    CStringSkips(t, b[|t|..]);
  }
}

module LockPath {
  import opened CStrings

  /** The characters the request-line pattern admits in a URI. */
  predicate UriChar(c: char) {
    'a' <= c <= 'z' || 'A' <= c <= 'Z' || '0' <= c <= '9' || c == '/' || c == '_' || c == '.' || c == '-'
  }

  /** A URI as conn_parse hands it out. */
  ghost predicate ParsedUri(uri: string) {
    1 <= |uri| <= 63 && forall i :: 0 <= i < |uri| ==> UriChar(uri[i])
  }

  function MangleChar(c: char): char { if c == '/' then '%' else c }

  function Mangle(uri: string): (r: string)
    ensures |r| == |uri| && forall i :: 0 <= i < |uri| ==> r[i] == MangleChar(uri[i])
  {
    seq(|uri|, i requires 0 <= i < |uri| => MangleChar(uri[i]))
  }

  /** The lockfile path that fits a buffer of `n` characters. */
  function PathIn(dir: string, uri: string, n: nat): string
    requires n > 0
  {
    var full := dir + "/" + Mangle(uri);
    if |full| < n then full else full[..n - 1]
  }

  const PATH_SIZE: nat := 192      // char path[192]
  const DIR_LIMIT: nat := 95       // static char lock_dir[96]

  function Path(dir: string, uri: string): string { PathIn(dir, uri, PATH_SIZE) }

  /** Fills `buf` in place; the directory must fit, the rest is cut off if it does not. */
  method LockPathFor(dir: string, uri: string, buf: array<char>)
    requires NUL !in dir && NUL !in uri
    requires |dir| + 1 < buf.Length
    modifies buf
    ensures CString(buf[..]) == PathIn(dir, uri, buf.Length)
    ensures forall i :: 0 <= i < |uri| && |dir| + 2 + i < buf.Length ==>
              buf[|dir| + 1 + i] == (if uri[i] == '/' then '%' else uri[i])
    ensures buf.Length == 192 && |dir| <= 95 && ParsedUri(uri) ==> '/' !in CString(buf[..])[|dir| + 1..]
  {
    var n := buf.Length;
    var off := |dir| + 1;
    forall i | 0 <= i <= off {
      buf[i] := if i < |dir| then dir[i] else if i == |dir| then '/' else NUL;
    }
    var p := 0;
    while p < |uri| && off + 1 < n
      invariant p <= |uri| && off == |dir| + 1 + p && off + 1 <= n
      invariant buf[..off] == dir + "/" + Mangle(uri)[..p]
      invariant forall i :: 0 <= i < p ==> buf[|dir| + 1 + i] == (if uri[i] == '/' then '%' else uri[i])
    {
      buf[off] := if uri[p] == '/' then '%' else uri[p];
      off, p := off + 1, p + 1;
    }
    buf[off] := NUL;
    var whole := buf[..];
    assert Mangle(uri)[..|uri|] == Mangle(uri);
    assert whole[..off] == PathIn(dir, uri, n);
    assert NUL !in Mangle(uri);
    CStringSkips(whole[..off], whole[off..]);
    assert whole == whole[..off] + whole[off..];
    if n == 192 && |dir| <= 95 && ParsedUri(uri) {
      PathIsEntry(dir, uri);
    }
  }

  /** The lockfile is a direct entry of the directory: slashes become percent signs, everything
      else is kept. */
  lemma PathIsEntry(dir: string, uri: string)
    requires |dir| <= 95 && ParsedUri(uri)
    ensures |Path(dir, uri)| == |dir| + 1 + |uri| && Path(dir, uri)[..|dir| + 1] == dir + "/"
    ensures forall i :: 0 <= i < |uri| ==> Path(dir, uri)[|dir| + 1 + i] == (if uri[i] == '/' then '%' else uri[i])
    ensures '/' !in Path(dir, uri)[|dir| + 1..]
  {
    var path := Path(dir, uri);
    assert path == dir + "/" + Mangle(uri);
    assert path[|dir| + 1..] == Mangle(uri);
  }

  /** Within the server's sizes nothing is cut off, and distinct URIs get distinct lockfiles. */
  lemma PathInjective(dir: string, u: string, v: string)
    requires |dir| <= DIR_LIMIT && ParsedUri(u) && ParsedUri(v)
    ensures Path(dir, u) == dir + "/" + Mangle(u)
    ensures Path(dir, u) == Path(dir, v) <==> u == v
  {
    if Path(dir, u) == Path(dir, v) {
      var k := |dir| + 1;
      assert Mangle(u) == Path(dir, u)[k..] && Mangle(v) == Path(dir, v)[k..];
      forall i | 0 <= i < |u| ensures u[i] == v[i] {
        assert Mangle(u)[i] == Mangle(v)[i];
      }
    }
  }
}
