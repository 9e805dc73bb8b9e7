/**
 * `spdk_nvmf_parse_addr`: a listen address split into host and port. A
 * leading '[' starts a bracketed IPv6 host, kept with its brackets; otherwise
 * the host runs to the first ':'. Without a port part the port is the
 * decimal text of the default NVMe-oF port. With one, the port runs from
 * after the ':' to the first '@' of the whole address, or to its end.
 */
module ListenAddr {
  import opened Wrappers
  import opened CStrings

  /** SPDK_NVMF_DEFAULT_SIN_PORT, the IANA port of NVMe over Fabrics. */
  const DefaultSinPort: nat := 4420
  /** PORTNUMSTRLEN: the buffer the default port is printed into. */
  const PortNumStrLen: nat := 32

  datatype Listen = Listen(host: CString, port: CString)

  /**
   * Why an address is refused (the function returns -1 for each).
   * `PortBeforeHost` is an '@' ahead of the port separator: the port length
   * comes out negative and the buffer request of that size cannot be met.
   * `EmptyPortGuard` is the IPv4 `q == p` test.
   */
  datatype AddrError = NullAddr | MissingBracket | BadSeparator | EmptyPortGuard | PortBeforeHost

  function DigitChar(d: nat): (c: char)
    requires d < 10
    ensures IsDigit(c) && DigitValue(c) == d
  {
    ('0' as int + d) as char
  }

  /** `snprintf("%d", n)` for a non-negative `n`: its shortest decimal text. */
  function DecimalText(n: nat): (r: string)
    ensures 0 < |r| && forall i :: 0 <= i < |r| ==> IsDigit(r[i])
    ensures DecimalValue(r) == n
    ensures '\0' !in r
    decreases n
  {
    if n < 10 then [DigitChar(n)]
    else
      var t := DecimalText(n / 10);
      var r := t + [DigitChar(n % 10)];
      assert r[..|r| - 1] == t;
      r
  }

  /** The port text used when the address carries none. */
  function DefaultPortText(): (r: CString)
    ensures |r| < PortNumStrLen && (forall i :: 0 <= i < |r| ==> IsDigit(r[i])) && DecimalValue(r) == DefaultSinPort
  {
    assert |DecimalText(4)| == 1;
    assert |DecimalText(44)| == 2;
    assert |DecimalText(442)| == 3;
    assert |DecimalText(4420)| == 4;
    DecimalText(DefaultSinPort)
  }

  /** `strchr(listen_addr, '@')`, or the end of the string. */
  function AtOrEnd(a: CString): (q: nat)
    ensures q <= |a| && '@' !in a[..q]
    ensures q < |a| ==> a[q] == '@'
  {
    match IndexOf(a, '@', 0)
    case Some(j) => j
    case None => |a|
  }

  /** The port part after the separator at `p`: `len = q - p - 1` characters from `p + 1`. */
  function PortPart(a: CString, host: CString, p: nat, q: nat): (r: Result<Listen, AddrError>)
    requires p < |a| && q <= |a|
  {
    if q < p + 1 then Failure(PortBeforeHost)
    else Success(Listen(host, a[p + 1..q]))
  }

  /** `spdk_nvmf_parse_addr`; `None` is the NULL address. */
  function ParseAddr(addr: Option<CString>): (r: Result<Listen, AddrError>)
    ensures addr.None? <==> r == Failure(NullAddr)
    ensures r.Success? ==> addr.Some? && r.value.host <= addr.value
    ensures r.Success? && addr.value != [] && addr.value[0] == '[' ==>
              r.value.host != [] && r.value.host[|r.value.host| - 1] == ']'
  {
    match addr
    case None => Failure(NullAddr)
    case Some(a) =>
      if |a| > 0 && a[0] == '[' then
        match IndexOf(a, ']', 1)
        case None => Failure(MissingBracket)
        case Some(j) =>
          var p := j + 1;
          var host := a[..p];
          if p == |a| then Success(Listen(host, DefaultPortText()))
          else if a[p] != ':' then Failure(BadSeparator)
          else PortPart(a, host, p, AtOrEnd(a))
      else
        var p := match IndexOf(a, ':', 0) case Some(j) => j case None => |a|;
        var host := a[..p];
        if p == |a| then Success(Listen(host, DefaultPortText()))
        else
          var q := AtOrEnd(a);
          if q == p then Failure(EmptyPortGuard)
          else PortPart(a, host, p, q)
  }

  /** An unbracketed address with its first ':' at `p` and its first '@' after it at `q`. */
  lemma Ipv4Split(a: CString, p: nat, q: nat)
    requires a != [] && a[0] != '[' && p < q <= |a|
    requires IndexOf(a, ':', 0) == Some(p) && AtOrEnd(a) == q
    ensures ParseAddr(Some(a)) == Success(Listen(a[..p], a[p + 1..q]))
  {
  }

  /** A host with neither ':' nor '@', then ":port": the port comes back whole. */
  lemma Ipv4WithPort(h: CString, port: CString)
    requires ':' !in h && '@' !in h && '@' !in port && (h == [] || h[0] != '[')
    ensures ParseAddr(Some(h + ":" + port)) == Success(Listen(h, port))
  {
    var a := h + ":" + port;
    assert IndexOf(a, ':', 0) == Some(|h|) by {
      assert a == h + (":" + port);
      IndexOfConcat(h, ":" + port, ':', 0);
    }
    assert AtOrEnd(a) == |a| by {
      assert '@' !in a;
    }
    assert a[..|h|] == h && a[|h| + 1..|a|] == port;
    Ipv4Split(a, |h|, |a|);
  }

  /** An '@' after the port ends it; what follows is ignored. */
  lemma Ipv4PortEndsAtAt(a: CString, h: CString, port: CString, rest: CString)
    requires ':' !in h && '@' !in h && '@' !in port && (h == [] || h[0] != '[')
    requires a == h + ":" + port + "@" + rest
    ensures ParseAddr(Some(a)) == Success(Listen(h, port))
  {
    var b := h + ":" + port;
    assert IndexOf(a, ':', 0) == Some(|h|) by {
      assert a == h + (":" + port + "@" + rest);
      IndexOfConcat(h, ":" + port + "@" + rest, ':', 0);
    }
    assert AtOrEnd(a) == |b| by {
      assert a == b + ("@" + rest);
      assert '@' !in b;
      IndexOfConcat(b, "@" + rest, '@', 0);
    }
    assert a[..|h|] == h && a[|h| + 1..|b|] == port by {
      assert a[..|b|] == b;
    }
    Ipv4Split(a, |h|, |b|);
  }

  /** No ':' at all: the whole address is the host and the port is the default. */
  lemma Ipv4DefaultPort(h: CString)
    requires ':' !in h && (h == [] || h[0] != '[')
    ensures ParseAddr(Some(h)) == Success(Listen(h, DefaultPortText()))
  {
    assert h[..|h|] == h;
  }

  /** A bracketed address whose first ']' is at `p - 1`, with ':' at `p` and its first '@' at `q`. */
  lemma Ipv6Split(a: CString, p: nat, q: nat)
    requires a != [] && a[0] == '[' && 0 < p < q <= |a| && a[p] == ':'
    requires IndexOf(a, ']', 1) == Some(p - 1) && AtOrEnd(a) == q
    ensures ParseAddr(Some(a)) == Success(Listen(a[..p], a[p + 1..q]))
  {
  }

  /** A bracketed host with ":port": the host keeps its brackets. */
  lemma Ipv6WithPort(inner: CString, port: CString)
    requires ']' !in inner && '@' !in inner && '@' !in port
    ensures ParseAddr(Some("[" + inner + "]:" + port)) == Success(Listen("[" + inner + "]", port))
  {
    var host := "[" + inner + "]";
    var a := host + ":" + port;
    assert "[" + inner + "]:" + port == a;
    assert IndexOf(a, ']', 1) == Some(|host| - 1) by {
      assert a == "[" + (inner + ("]:" + port));
      IndexOfShift("[", inner + ("]:" + port), ']', 0);
      IndexOfConcat(inner, "]:" + port, ']', 0);
    }
    assert AtOrEnd(a) == |a| by {
      assert '@' !in a;
    }
    assert a[..|host|] == host && a[|host|] == ':' && a[|host| + 1..|a|] == port;
    Ipv6Split(a, |host|, |a|);
  }

  /** A bracketed host alone takes the default port. */
  lemma Ipv6DefaultPort(inner: CString)
    requires ']' !in inner
    ensures ParseAddr(Some("[" + inner + "]")) == Success(Listen("[" + inner + "]", DefaultPortText()))
  {
    var a := "[" + inner + "]";
    assert a == "[" + (inner + "]");
    IndexOfShift("[", inner + "]", ']', 0);
    IndexOfConcat(inner, "]", ']', 0);
    assert a[..|a|] == a;
  }

  /** A '[' with no ']' after it is refused. */
  lemma Ipv6MissingBracket(a: CString)
    requires |a| > 0 && a[0] == '[' && ']' !in a[1..]
    ensures ParseAddr(Some(a)) == Failure(MissingBracket)
  {
    assert forall k :: 1 <= k < |a| ==> a[k] == a[1..][k - 1];
  }

  /** After the ']' only the end or ':' is allowed. */
  lemma Ipv6BadSeparator(inner: CString, c: char, rest: CString)
    requires ']' !in inner && c != ':' && c != '\0' && c as int < 128
    ensures ParseAddr(Some("[" + inner + "]" + [c] + rest)) == Failure(BadSeparator)
  {
    var a := "[" + inner + "]" + [c] + rest;
    assert a == "[" + (inner + ("]" + [c] + rest));
    IndexOfShift("[", inner + ("]" + [c] + rest), ']', 0);
    IndexOfConcat(inner, "]" + [c] + rest, ']', 0);
    assert a[|inner| + 2] == c;
  }

  /**
   * The first '@' of the address lies ahead of the port separator: the
   * first ':' of an unbracketed address, or the ':' right after the ']' of
   * a bracketed one.
   */
  predicate AtBeforeSeparator(a: CString) {
    if a != [] && a[0] == '[' then
      && IndexOf(a, ']', 1).Some?
      && IndexOf(a, ']', 1).value + 1 < |a| && a[IndexOf(a, ']', 1).value + 1] == ':'
      && AtOrEnd(a) < IndexOf(a, ']', 1).value + 1
    else
      IndexOf(a, ':', 0).Some? && AtOrEnd(a) < IndexOf(a, ':', 0).value
  }

  /**
   * The '@' is searched from the start of the address rather than after
   * the separator, so an address is refused as `PortBeforeHost` exactly
   * when an '@' sits in its host part ahead of a port.
   */
  lemma PortBeforeHostExactly(a: CString)
    ensures ParseAddr(Some(a)) == Failure(PortBeforeHost) <==> AtBeforeSeparator(a)
  {
  }

  /** For instance an IPv4 host with an '@' in it. */
  lemma AtInsideHostRejected()
    ensures ParseAddr(Some("a@b:1")) == Failure(PortBeforeHost)
  {
    assert IndexOf("a@b:1", ':', 0) == Some(3);
    assert IndexOf("a@b:1", '@', 0) == Some(1);
  }

  /** The `q == p` guard of the IPv4 branch never decides: the character at `p` is ':'. */
  lemma EmptyPortGuardUnreachable(addr: Option<CString>)
    ensures ParseAddr(addr) != Failure(EmptyPortGuard)
  {
  }
}
