/** The text part of the HTTP proxy: finding host and port in the absolute form of the request
    target, and rewriting the request to the origin form (sections 3.2.2 and 3.2.1 of RFC 9112).
    Both work on the C string in the receive buffer: what was received before the first NUL. */
module HttpProxy {
  import opened Basics
  import opened Decimals
  import opened CStrings
  import opened HttpSpec

  const BUFFER_SIZE := 4096
  const SCHEME := "http://"

  // ================================================================ the C library calls

  const SPACES: set<char> := {' ', '\t', '\n', '\r', '\U{0B}', '\U{0C}'}

  /** How many characters `s` begins with that are not in `stop`, but at most `max`. */
  function Span(s: string, stop: set<char>, max: nat): (n: nat)
    ensures n <= |s| && n <= max
    ensures forall k :: 0 <= k < n ==> s[k] !in stop
    ensures n < |s| && n < max ==> s[n] in stop
  {
    if s == [] || s[0] in stop || max == 0 then 0 else 1 + Span(s[1..], stop, max - 1)
  }

  function SkipSpaces(s: string): string {
    if s != [] && s[0] in SPACES then SkipSpaces(s[1..]) else s
  }

  /** `%s`: skip white space, then take everything up to the next; the word and the rest. */
  function ScanWord(s: string): Option<(string, string)> {
    var t := SkipSpaces(s);
    var n := Span(t, SPACES, |t|);
    if n == 0 then None else Some((t[..n], t[n..]))
  }

  /** `%255[^...]`: the longest prefix without the given characters; fails if it is empty. */
  function ScanSet(s: string, stop: set<char>): Option<(string, string)> {
    var n := Span(s, stop, 255);
    if n == 0 then None else Some((s[..n], s[n..]))
  }

  function DigitSpan(s: string): (n: nat)
    ensures n <= |s| && AllDigits(s[..n])
    ensures n < |s| ==> !IsDigit(s[n])
  {
    if s == [] || !IsDigit(s[0]) then 0
    else var n := 1 + DigitSpan(s[1..]); assert s[..n] == [s[0]] + s[1..][..n - 1]; n
  }

  /** `%d`: skip white space, an optional sign, at least one digit. */
  function ScanInt(s: string): Option<int> {
    var t := SkipSpaces(s);
    var u := if t != [] && (t[0] == '-' || t[0] == '+') then t[1..] else t;
    var n := DigitSpan(u);
    if n == 0 then None
    else var v: int := ValueOf(u[..n]); Some(if t[0] == '-' then -v else v)
  }

  /** `strchr` and `strstr(..., "\r\n")`, as an index. */
  function IndexOf(s: string, c: char): (r: Option<nat>)
    ensures r.Some? ==> r.value < |s| && s[r.value] == c && forall k :: 0 <= k < r.value ==> s[k] != c
    ensures r.None? ==> c !in s
  {
    if s == [] then None else if s[0] == c then Some(0)
    else var r := IndexOf(s[1..], c); if r.None? then None else Some(r.value + 1)
  }

  function IndexOfCrLf(s: string): (r: Option<nat>)
    ensures r.Some? ==> CrLfAt(s, r.value) && forall k :: 0 <= k < r.value ==> !CrLfAt(s, k)
    ensures r.None? ==> forall k :: 0 <= k ==> !CrLfAt(s, k)
  {
    if |s| < 2 then None
    else if CrLfAt(s, 0) then Some(0)
    else
      var r := IndexOfCrLf(s[1..]);
      assert forall k :: 0 < k ==> (CrLfAt(s, k) <==> CrLfAt(s[1..], k - 1));
      if r.None? then None else Some(r.value + 1)
  }

  function Take(s: string, n: nat): string { if |s| <= n then s else s[..n] }

  /** `strncpy`: at most `n` characters, padded with NULs to `n`. */
  method Strncpy(dst: array<char>, src: string, n: nat)
    requires n <= dst.Length
    modifies dst
    ensures forall i :: 0 <= i < n ==> dst[i] == if i < |src| then src[i] else '\0'
    ensures forall i :: n <= i < dst.Length ==> dst[i] == old(dst[i])
  {
    forall i | 0 <= i < n { dst[i] := if i < |src| then src[i] else '\0'; }
  }

  /** `strcpy`: the characters and the NUL must fit. */
  method Strcpy(dst: array<char>, src: string)
    requires |src| < dst.Length && '\0' !in src
    modifies dst
    ensures CString(dst[..]) == src
  {
    forall i | 0 <= i <= |src| { dst[i] := if i < |src| then src[i] else '\0'; }
    CStringPrefix(dst[..], |src|);
  }

  /** `snprintf` with the size of the array: cut to leave room for the NUL. */
  method Snprintf(dst: array<char>, text: string)
    requires dst.Length > 0 && '\0' !in text
    modifies dst
    ensures '\0' in dst[..] && CString(dst[..]) == Take(text, dst.Length - 1)
  {
    var t := Take(text, dst.Length - 1);
    Strcpy(dst, t);
    CStringIs(dst[..]);
    assert dst[..][|t|] == '\0';
  }

  /** `strlen`: the array must hold a NUL, or the search runs past its end. */
  method Strlen(a: array<char>) returns (n: nat)
    requires '\0' in a[..]
    ensures n < a.Length && a[n] == '\0' && CString(a[..]) == a[..n] && '\0' !in a[..n]
  {
    ghost var end :| 0 <= end < a.Length && a[end] == '\0';
    n := 0;
    while a[n] != '\0'
      invariant n <= end && forall i :: 0 <= i < n ==> a[i] != '\0'
      decreases end - n
    {
      n := n + 1;
    }
    CStringPrefix(a[..], n);
  }

  /** `strncat`: at most `n` characters behind the string in `dst`, and a NUL; all of them must
      fit. */
  method Strncat(dst: array<char>, src: string, n: nat)
    requires '\0' in dst[..] && '\0' !in src
    requires |CString(dst[..])| + |Take(src, n)| < dst.Length
    modifies dst
    ensures '\0' in dst[..] && CString(dst[..]) == old(CString(dst[..])) + Take(src, n)
  {
    var len := Strlen(dst);
    var end := len + |Take(src, n)|;
    forall i | len <= i <= end { dst[i] := if i < end then src[i - len] else '\0'; }
    CStringPrefix(dst[..], end);
    assert dst[..][end] == '\0';
  }

  // ================================================================ scanning the request line

  /** `sscanf` with one `%s` for each array, given their sizes.  A word that does not fit with
      its NUL is written past the end of its array; an array whose word is missing stays
      uninitialised. */
  datatype Scanned = Overrun | Words(list: seq<string>)

  function ScanInto(s: string, sizes: seq<nat>): Scanned
    decreases sizes
  {
    if sizes == [] || ScanWord(s).None? then Words([])
    else
      var (word, rest) := ScanWord(s).value;
      if |word| >= sizes[0] then Overrun
      else
        match ScanInto(rest, sizes[1..])
        case Overrun => Overrun
        case Words(more) => Words([word] + more)
  }

  /** `char method[10], url[1024], protocol[10]`. */
  const ARRAYS: seq<nat> := [10, 1024, 10]

  /** `sscanf(s, "%255[^:/]:%d", ...) == 2`. */
  function ScanHostPort(s: string): Option<(string, int)> {
    var h := ScanSet(s, {':', '/'});
    if h.None? || h.value.1 == [] || h.value.1[0] != ':' then None
    else
      var p := ScanInt(h.value.1[1..]);
      if p.None? then None else Some((h.value.0, p.value))
  }

  // ================================================================ finding host and port

  /** Host and port of what follows the scheme: split at the colon if a number follows it, else
      everything before the path, with the default port. */
  function Authority(s: string): Parsed {
    var both := ScanHostPort(s);
    if both.Some? then (if InInt(both.value.1) then Host(both.value.0, both.value.1) else Undefined)
    else if Span(s, {'/'}, 255) == 0 then Refused
    else Host(s[..Span(s, {'/'}, 255)], 80)
  }

  function Understood(buffer: string): Parsed {
    match ScanInto(buffer, ARRAYS)
    case Overrun => Undefined
    case Words(w) =>
      if |w| < 2 then Undefined else if SCHEME <= w[1] then Authority(w[1][7..]) else Refused
  }

  /** `parse_http_request`. */
  method ParseRequest(received: seq<char>) returns (r: Parsed)
    ensures r == Understood(CString(received))
    ensures forall m, url, protocol :: Reads(CString(received), m, url, protocol) ==> Answers(m, url, protocol, r)
    ensures r.Host? ==> 0 < |r.hostname| <= 255 && '/' !in r.hostname && InInt(r.port)
    ensures forall m, t, protocol, rest ::
      received == Request(m, Url(t), protocol, rest) && Word(m) && Word(protocol) && WellFormed(t) ==>
        (r == Host(t.host, PortOf(t)) <==> Fits(m, t, protocol) && |t.host| <= 255 && InInt(PortOf(t)))
  {
    forall m, t, protocol, rest |
      received == Request(m, Url(t), protocol, rest) && Word(m) && Word(protocol) && WellFormed(t)
      ensures Understood(CString(received)) == Host(t.host, PortOf(t)) <==>
              Fits(m, t, protocol) && |t.host| <= 255 && InInt(PortOf(t))
    {
      ParseInvertsPrint(m, t, protocol, rest);
    }
    forall m, url, protocol | Reads(CString(received), m, url, protocol)
      ensures Answers(m, url, protocol, Understood(CString(received)))
    {
      ParseMeans(CString(received), m, url, protocol);
    }
    var scanned := ScanInto(CString(received), ARRAYS);
    if scanned.Overrun? || |scanned.list| < 2 {
      return Undefined;
    }
    var url, port := scanned.list[1], 80;
    if SCHEME <= url {
      var both := ScanHostPort(url[7..]);
      if both.Some? {
        port := both.value.1;
        if !InInt(port) {
          return Undefined;
        }
        return Host(both.value.0, port);
      }
      var alone := ScanSet(url[7..], {'/'});
      if alone.Some? {
        return Host(alone.value.0, port);
      }
    }
    r := Refused;
  }

  // ================================================================ rewriting the request

  /** The origin form of an absolute URL: from the first slash after the scheme. */
  function OriginForm(url: string): string
    requires SCHEME <= url
  {
    var slash := IndexOf(url[7..], '/');
    if slash.Some? then url[7..][slash.value..] else "/"
  }

  /** What follows the first line. */
  function Headers(buffer: string): string {
    var i := IndexOfCrLf(buffer);
    if i.Some? then buffer[i.value + 2..] else ""
  }

  /** What a request becomes: the same with the target in origin form, as far as it fits into
      the buffer; unknown if an array is overrun or read without having been written. */
  function Rewritten(buffer: string): Outcome {
    match ScanInto(buffer, ARRAYS)
    case Overrun => Unknown
    case Words(w) =>
      if |w| < 2 then Unknown
      else if !(SCHEME <= w[1]) then Nothing
      else if |w| < 3 then Unknown
      else Sent(Take(Request(w[0], OriginForm(w[1]), w[2], Headers(buffer)), BUFFER_SIZE - 1))
  }

  /** Words that were scanned fit into their arrays and are part of the text. */
  lemma {:induction false} ScannedFit(s: string, sizes: seq<nat>)
    requires ScanInto(s, sizes).Words? && '\0' !in s
    ensures |ScanInto(s, sizes).list| <= |sizes|
    ensures var w := ScanInto(s, sizes).list;
      forall i :: 0 <= i < |w| ==> |w[i]| < sizes[i] && '\0' !in w[i]
    decreases sizes
  {
    if sizes != [] && ScanWord(s).Some? {
      WordWithin(s);
      ScannedFit(ScanWord(s).value.1, sizes[1..]);
    }
  }

  lemma WordWithin(s: string)
    requires ScanWord(s).Some? && '\0' !in s
    ensures '\0' !in ScanWord(s).value.0 && '\0' !in ScanWord(s).value.1
  {
    SkipWithin(s);
  }

  lemma {:induction false} SkipWithin(s: string)
    requires '\0' !in s
    ensures '\0' !in SkipSpaces(s)
  {
    if s != [] && s[0] in SPACES { SkipWithin(s[1..]); }
  }

  /** Filling `path`, which is all NULs. */
  method CopyPath(url: string, path: array<char>)
    requires SCHEME <= url && '\0' !in url
    requires |url| <= path.Length && path.Length > 1 && forall i :: 0 <= i < path.Length ==> path[i] == '\0'
    modifies path
    ensures CString(path[..]) == OriginForm(url)
  {
    var pathStart := IndexOf(url[7..], '/');
    if pathStart.Some? {
      var from := url[7..][pathStart.value..];
      Strncpy(path, from, path.Length - 1);
      CStringPrefix(path[..], |from|);
      assert path[..][..|from|] == from;
    } else {
      Strcpy(path, "/");
    }
  }

  lemma TakeTwice(a: string, b: string, n: nat)
    ensures Take(a, n) + Take(b, n - |Take(a, n)|) == Take(a + b, n)
  {
  }

  /** Filling `modified_request`: what the bounded calls leave is the beginning of the text. */
  method Assemble(m: string, path: string, protocol: string, buffer: string, modified: array<char>)
    requires '\0' !in m && '\0' !in path && '\0' !in protocol && '\0' !in buffer && modified.Length > 0
    modifies modified
    ensures '\0' in modified[..]
    ensures CString(modified[..]) == Take(Request(m, path, protocol, Headers(buffer)), modified.Length - 1)
  {
    var line := m + " " + path + " " + protocol + "\r\n";
    Snprintf(modified, line);
    TakeTwice(line, Headers(buffer), modified.Length - 1);
    var headers := IndexOfCrLf(buffer);
    if headers.Some? {
      var len := Strlen(modified);
      Strncat(modified, buffer[headers.value + 2..], modified.Length - len - 1);
    }
  }

  /** The text part of `forward_request`: what is sent to the target, or nothing.  The bounds of
      the two arrays are preconditions of the calls that fill them. */
  method RewriteRequest(received: seq<char>) returns (sent: Outcome)
    ensures sent == Rewritten(CString(received))
    ensures forall m, url, protocol :: Reads(CString(received), m, url, protocol) ==>
      Forwards(CString(received), m, url, protocol, sent)
  {
    var buffer := CString(received);
    forall m, url, protocol | Reads(buffer, m, url, protocol)
      ensures Forwards(buffer, m, url, protocol, Rewritten(buffer))
    {
      RewriteMeans(buffer, m, url, protocol);
    }
    CStringIs(received);
    var scanned := ScanInto(buffer, ARRAYS);
    if scanned.Overrun? || |scanned.list| < 2 {
      return Unknown;
    }
    ScannedFit(buffer, ARRAYS);
    var w := scanned.list;
    var path := new char[1024](_ => '\0');
    if SCHEME <= w[1] {
      CopyPath(w[1], path);
    } else {
      return Nothing;
    }
    if |w| < 3 {
      return Unknown;
    }
    CStringIs(path[..]);
    var modified := new char[BUFFER_SIZE];
    Assemble(w[0], CString(path[..]), w[2], buffer, modified);
    var len := Strlen(modified);
    sent := Sent(modified[..len]);
  }

  // ================================================================ lemmas

  lemma {:induction false} SpanStops(a: string, b: string, stop: set<char>, max: nat)
    requires |a| <= max && (forall k :: 0 <= k < |a| ==> a[k] !in stop) && (b == [] || b[0] in stop)
    ensures Span(a + b, stop, max) == |a|
  {
    if a == [] {
      assert a + b == b;
    } else {
      assert (a + b)[1..] == a[1..] + b;
      SpanStops(a[1..], b, stop, max - 1);
    }
  }

  lemma Spaces(c: char)
    ensures c in SPACES <==> IsSpace(c)
  {
  }

  lemma {:induction false} SkipAll(a: string, s: string)
    requires AllSpaces(a) && (s == [] || !IsSpace(s[0]))
    ensures SkipSpaces(a + s) == s
  {
    if a == [] {
      assert a + s == s;
      if s != [] { Spaces(s[0]); }
    } else {
      Spaces(a[0]);
      assert (a + s)[1..] == a[1..] + s;
      SkipAll(a[1..], s);
    }
  }

  lemma ScanWordOf(a: string, w: string, rest: string)
    requires AllSpaces(a) && Word(w) && EndsWord(rest)
    ensures ScanWord(a + w + rest) == Some((w, rest))
  {
    assert a + w + rest == a + (w + rest);
    SkipAll(a, w + rest);
    forall k | 0 <= k < |w| ensures w[k] !in SPACES { Spaces(w[k]); }
    if rest != [] { Spaces(rest[0]); }
    SpanStops(w, rest, SPACES, |w + rest|);
  }

  lemma ScanNothing(a: string)
    requires AllSpaces(a)
    ensures ScanWord(a) == None
  {
    assert a + [] == a;
    SkipAll(a, []);
  }

  lemma ScanLast(c: string, protocol: string, rest: string)
    requires AllSpaces(c) && if protocol == [] then rest == [] else Word(protocol) && EndsWord(rest)
    ensures ScanInto(c + protocol + rest, [10]) ==
            if protocol == [] then Words([]) else if |protocol| < 10 then Words([protocol]) else Overrun
  {
    if protocol == [] {
      assert c + protocol + rest == c;
      ScanNothing(c);
    } else {
      ScanWordOf(c, protocol, rest);
    }
  }

  /** The words that are read are the words that are scanned. */
  lemma ScanReads(text: string, a: string, m: string, b: string, url: string, c: string, protocol: string, rest: string)
    requires ReadsAs(text, a, m, b, url, c, protocol, rest)
    ensures ScanInto(text, ARRAYS) ==
            if !Fit(m, url, protocol) then Overrun
            else if protocol == [] then Words([m, url]) else Words([m, url, protocol])
  {
    var r2 := c + protocol + rest;
    var r1 := b + url + r2;
    assert text == a + m + r1;
    ScanLast(c, protocol, rest);
    ScanWordOf(b, url, r2);
    assert [1024, 10][1..] == [10];
    ScanWordOf(a, m, r1);
    assert ARRAYS[1..] == [1024, 10];
  }

  lemma ScanRequest(m: string, url: string, protocol: string, rest: string)
    requires Word(m) && Word(url) && Word(protocol)
    ensures ScanInto(Request(m, url, protocol, rest), ARRAYS) ==
            if Fit(m, url, protocol) then Words([m, url, protocol]) else Overrun
    ensures Reads(Request(m, url, protocol, rest), m, url, protocol)
  {
    var text := Request(m, url, protocol, rest);
    assert text == [] + m + " " + url + " " + protocol + ("\r\n" + rest);
    assert ReadsAs(text, [], m, " ", url, " ", protocol, "\r\n" + rest);
    ScanReads(text, [], m, " ", url, " ", protocol, "\r\n" + rest);
  }

  lemma {:induction false} DigitSpanStops(d: string, rest: string)
    requires AllDigits(d) && (rest == [] || !IsDigit(rest[0]))
    ensures DigitSpan(d + rest) == |d|
  {
    if d == [] {
      assert d + rest == rest;
    } else {
      assert (d + rest)[1..] == d[1..] + rest;
      DigitSpanStops(d[1..], rest);
    }
  }

  lemma ScanSigned(sign: string, digits: string, more: string)
    requires (sign == "" || sign == "+" || sign == "-") && digits != [] && AllDigits(digits)
    requires more == [] || !IsDigit(more[0])
    ensures ScanInt(sign + digits + more) == Some(SignedValue(sign, digits))
  {
    var t, u := sign + digits + more, digits + more;
    assert t == sign + u;
    assert IsDigit(digits[0]) && u[0] == digits[0];
    assert SkipSpaces(t) == t;
    assert (if t[0] == '-' || t[0] == '+' then t[1..] else t) == u;
    DigitSpanStops(digits, more);
    assert u[..|digits|] == digits;
  }

  /** A host and a number are found exactly if they are there. */
  lemma PortFound(s: string, host: string, sign: string, digits: string, more: string)
    requires PortAs(s, host, sign, digits, more)
    ensures ScanHostPort(s) == Some((host, SignedValue(sign, digits)))
  {
    var t := sign + digits + more;
    assert s == host + (":" + t);
    SpanStops(host, ":" + t, {':', '/'}, 255);
    assert s[..|host|] == host && s[|host|..] == ":" + t && (":" + t)[1..] == t;
    ScanSigned(sign, digits, more);
  }

  lemma IntThere(t: string) returns (sign: string, digits: string, more: string)
    requires ScanInt(t).Some? && (t == [] || !IsSpace(t[0]))
    ensures t == sign + digits + more && (sign == "" || sign == "+" || sign == "-")
    ensures digits != [] && AllDigits(digits) && (more == [] || !IsDigit(more[0]))
    ensures ScanInt(t) == Some(SignedValue(sign, digits))
  {
    assert SkipSpaces(t) == t by { if t != [] { Spaces(t[0]); } }
    sign := if t[0] == '-' || t[0] == '+' then t[..1] else "";
    var u := t[|sign|..];
    digits, more := u[..DigitSpan(u)], u[DigitSpan(u)..];
  }

  lemma PortThere(s: string)
    requires ScanHostPort(s).Some? && forall k :: 0 <= k < |s| ==> !IsSpace(s[k])
    ensures NamesPort(s, ScanHostPort(s).value.0, ScanHostPort(s).value.1)
  {
    var n := Span(s, {':', '/'}, 255);
    var t := s[n..][1..];
    assert t == s[n + 1..];
    var sign, digits, more := IntThere(t);
    assert s == s[..n] + ":" + sign + digits + more by { Glue(s, n, sign, digits, more); }
    assert PortAs(s, s[..n], sign, digits, more);
  }

  lemma Glue(s: string, n: nat, sign: string, digits: string, more: string)
    requires n < |s| && s[n] == ':' && s[n + 1..] == sign + digits + more
    ensures s == s[..n] + ":" + sign + digits + more
  {
    assert s == s[..n] + ":" + s[n + 1..];
  }

  lemma AuthorityMeans(s: string)
    requires forall k :: 0 <= k < |s| ==> !IsSpace(s[k])
    requires s != [] && s[0] != '/'
    ensures ScanHostPort(s).Some? <==> HasPort(s)
    ensures ScanHostPort(s).Some? ==> NamesPort(s, ScanHostPort(s).value.0, ScanHostPort(s).value.1)
    ensures NamesHost(s, s[..Span(s, {'/'}, 255)])
  {
    if HasPort(s) {
      var host, port :| NamesPort(s, host, port);
      var sign, digits, more :| PortAs(s, host, sign, digits, more) && port == SignedValue(sign, digits);
      PortFound(s, host, sign, digits, more);
    }
    if ScanHostPort(s).Some? { PortThere(s); }
  }

  lemma NamesOneHost(s: string, g: string, h: string)
    requires NamesHost(s, g) && NamesHost(s, h)
    ensures g == h
  {
    assert g == s[..|g|] && h == s[..|h|];
  }

  lemma NamesOnePort(s: string, host: string, port: int)
    requires NamesPort(s, host, port)
    ensures ScanHostPort(s) == Some((host, port))
  {
    var sign, digits, more :| PortAs(s, host, sign, digits, more) && port == SignedValue(sign, digits);
    PortFound(s, host, sign, digits, more);
  }

  /** A URL denotes one answer only. */
  lemma DenotesOne(url: string, q: Parsed, r: Parsed)
    requires Denotes(url, q) && Denotes(url, r)
    ensures q == r
  {
    if Absolute(url) && |url| > 7 && url[7] != '/' {
      var s := url[7..];
      forall host, port | NamesPort(s, host, port) ensures ScanHostPort(s) == Some((host, port)) {
        NamesOnePort(s, host, port);
      }
      if !HasPort(s) { NamesOneHost(s, q.hostname, r.hostname); }
    }
  }

  /** For every text with at least two words: the answer is the one its URL denotes. */
  lemma ParseMeans(text: string, m: string, url: string, protocol: string)
    requires Reads(text, m, url, protocol)
    ensures Answers(m, url, protocol, Understood(text))
  {
    var a, b, c, rest :| ReadsAs(text, a, m, b, url, c, protocol, rest);
    ScanReads(text, a, m, b, url, c, protocol, rest);
    if Fit(m, url, protocol) && Absolute(url) && |url| > 7 && url[7] != '/' {
      AuthorityMeans(url[7..]);
    }
  }

  lemma PathMeans(url: string)
    requires Absolute(url)
    ensures IsPath(url, OriginForm(url))
  {
    var s := url[7..];
    var slash := IndexOf(s, '/');
    if slash.Some? { assert SplitsAt(s, s[..slash.value], s[slash.value..]); }
  }

  lemma RestMeans(text: string)
    ensures IsRest(text, Headers(text))
  {
  }

  lemma RewrittenIs(text: string, m: string, url: string, protocol: string)
    requires ScanInto(text, ARRAYS) == Words([m, url, protocol]) && Absolute(url)
    ensures Rewritten(text) == Sent(Cut(Request(m, OriginForm(url), protocol, Headers(text))))
  {
  }

  /** For every text with at least two words: what is sent is what it is to be forwarded as. */
  lemma RewriteMeans(text: string, m: string, url: string, protocol: string)
    requires Reads(text, m, url, protocol)
    ensures Forwards(text, m, url, protocol, Rewritten(text))
  {
    var a, b, c, rest :| ReadsAs(text, a, m, b, url, c, protocol, rest);
    ScanReads(text, a, m, b, url, c, protocol, rest);
    if Fit(m, url, protocol) && Absolute(url) && protocol != [] {
      RewrittenIs(text, m, url, protocol);
      PathMeans(url);
      RestMeans(text);
    }
  }

  lemma HostScanned(t: Target, tail: string)
    requires WellFormed(t) && |t.host| <= 255 && tail == PortText(t.port) + t.path
    ensures ScanSet(t.host + tail, {':', '/'}) == Some((t.host, tail))
    ensures t.port.None? ==> Span(t.host + tail, {'/'}, 255) == |t.host|
  {
    SpanStops(t.host, tail, {':', '/'}, 255);
    if t.port.None? {
      assert tail == t.path;
      SpanStops(t.host, tail, {'/'}, 255);
    }
  }

  lemma PortScanned(port: nat, path: string)
    requires path == [] || path[0] == '/'
    ensures var tail := PortText(Some(port)) + path; tail[0] == ':' && ScanInt(tail[1..]) == Some(port)
  {
    var tail := PortText(Some(port)) + path;
    assert tail[1..] == "" + Decimal(port) + path;
    ScanSigned("", Decimal(port), path);
    DecimalValue(port);
  }

  lemma AuthorityWithPort(host: string, tail: string, port: int)
    requires ScanSet(host + tail, {':', '/'}) == Some((host, tail))
    requires tail != [] && tail[0] == ':' && ScanInt(tail[1..]) == Some(port)
    ensures Authority(host + tail) == if InInt(port) then Host(host, port) else Undefined
  {
  }

  lemma AuthorityAlone(host: string, tail: string)
    requires host != [] && ScanSet(host + tail, {':', '/'}) == Some((host, tail))
    requires (tail == [] || tail[0] == '/') && Span(host + tail, {'/'}, 255) == |host|
    ensures Authority(host + tail) == Host(host, 80)
  {
    assert (host + tail)[..|host|] == host;
  }

  /** A host that does not fit is cut, and its port is not seen. */
  lemma AuthorityCut(host: string, tail: string)
    requires |host| > 255 && forall k :: 0 <= k < |host| ==> host[k] != ':' && host[k] != '/'
    ensures Authority(host + tail) == Host(host[..255], 80)
  {
  }

  lemma AuthorityOf(t: Target)
    requires WellFormed(t)
    ensures Authority(t.host + PortText(t.port) + t.path) ==
            if |t.host| > 255 then Host(t.host[..255], 80)
            else if InInt(PortOf(t)) then Host(t.host, PortOf(t)) else Undefined
  {
    var tail := PortText(t.port) + t.path;
    assert t.host + PortText(t.port) + t.path == t.host + tail;
    if |t.host| > 255 {
      AuthorityCut(t.host, tail);
    } else {
      HostScanned(t, tail);
      if t.port.Some? {
        PortScanned(t.port.value, t.path);
        AuthorityWithPort(t.host, tail, t.port.value);
      } else {
        assert tail == t.path;
        AuthorityAlone(t.host, tail);
      }
    }
  }

  lemma {:induction false} FirstSlash(a: string, b: string)
    requires forall k :: 0 <= k < |a| ==> a[k] != '/'
    requires b == [] || b[0] == '/'
    ensures IndexOf(a + b, '/') == if b == [] then None else Some(|a|)
  {
    if a == [] {
      assert a + b == b;
    } else {
      assert (a + b)[1..] == a[1..] + b;
      FirstSlash(a[1..], b);
    }
  }

  lemma UrlWord(t: Target)
    requires WellFormed(t)
    ensures Word(Url(t)) && SCHEME <= Url(t) && Url(t)[7..] == t.host + PortText(t.port) + t.path
    ensures Url(t)[7] != '/'
  {
    var p := PortText(t.port);
    assert forall k :: 0 <= k < |p| ==> !IsSpace(p[k]) && p[k] != '\0';
    assert Url(t) == SCHEME + (t.host + p + t.path);
  }

  lemma OriginFormOf(t: Target)
    requires WellFormed(t)
    ensures SCHEME <= Url(t) && OriginForm(Url(t)) == PathOf(t)
  {
    UrlWord(t);
    var a := t.host + PortText(t.port);
    FirstSlash(a, t.path);
    assert t.path != [] ==> (a + t.path)[|a|..] == t.path;
  }

  /** The C string of a received request: only the part after the first line can be cut. */
  lemma RequestReceived(m: string, url: string, protocol: string, rest: string)
    requires Word(m) && Word(url) && Word(protocol)
    ensures CString(Request(m, url, protocol, rest)) == Request(m, url, protocol, CString(rest))
  {
    var line := m + " " + url + " " + protocol + "\r\n";
    assert forall k :: 0 <= k < |line| ==> line[k] != '\0';
    CStringAppend(line, rest);
  }

  /** Parsing inverts printing: any request for a well-formed target is understood as a request
      for its host and its port (80 if there is none) exactly if the words fit into their arrays,
      the host has at most 255 characters and the port is an `int`.  A longer host is cut and its
      port ignored; in the other cases the behaviour is undefined. */
  lemma ParseInvertsPrint(m: string, t: Target, protocol: string, rest: string)
    requires Word(m) && Word(protocol) && WellFormed(t)
    ensures var r := Understood(CString(Request(m, Url(t), protocol, rest)));
      && (r == Host(t.host, PortOf(t)) <==> Fits(m, t, protocol) && |t.host| <= 255 && InInt(PortOf(t)))
      && (r.Undefined? <==> !Fits(m, t, protocol) || (|t.host| <= 255 && !InInt(PortOf(t))))
      && (Fits(m, t, protocol) && |t.host| > 255 ==> r == Host(t.host[..255], 80))
  {
    UrlWord(t);
    RequestReceived(m, Url(t), protocol, rest);
    ScanRequest(m, Url(t), protocol, CString(rest));
    AuthorityOf(t);
  }

  /** The first CRLF of a request ends its request line. */
  lemma FirstCrLf(m: string, url: string, protocol: string, rest: string)
    requires Word(m) && Word(url) && Word(protocol)
    ensures Headers(Request(m, url, protocol, rest)) == rest
  {
    var line := m + " " + url + " " + protocol;
    var b := Request(m, url, protocol, rest);
    assert b == line + "\r\n" + rest;
    assert CrLfAt(b, |line|);
    assert forall k :: 0 <= k < |line| ==> line[k] != '\r';
    assert b[|line| + 2..] == rest;
  }

  /** Rewriting a request for a well-formed target: exactly if the words fit into their arrays,
      the same request is sent with the path as its target and with everything that followed the
      first CRLF up to the first NUL.  It is shorter than what was received, so that no bounded
      copy cuts it; hence all that followed the CRLF is forwarded if and only if no NUL was
      received. */
  lemma RewriteLossless(m: string, t: Target, protocol: string, rest: string)
    requires Word(m) && Word(protocol) && WellFormed(t)
    requires |Request(m, Url(t), protocol, rest)| < 4096
    ensures var received := Request(m, Url(t), protocol, rest); var sent := Rewritten(CString(received));
      && (Fits(m, t, protocol) <==> sent.Sent?)
      && (sent.Sent? ==>
            && sent.text == Request(m, PathOf(t), protocol, CString(rest))
            && |sent.text| < |received|
            && (sent.text == Request(m, PathOf(t), protocol, rest) <==> '\0' !in received))
      && (!sent.Sent? ==> sent.Unknown?)
  {
    UrlWord(t);
    RequestReceived(m, Url(t), protocol, rest);
    ScanRequest(m, Url(t), protocol, CString(rest));
    OriginFormOf(t);
    FirstCrLf(m, Url(t), protocol, CString(rest));
    CStringIs(rest);
    Forwarded(m, t, protocol, rest);
  }

  lemma Forwarded(m: string, t: Target, protocol: string, rest: string)
    requires Word(m) && Word(protocol) && WellFormed(t)
    ensures |Request(m, PathOf(t), protocol, CString(rest))| < |Request(m, Url(t), protocol, rest)|
    ensures Request(m, PathOf(t), protocol, CString(rest)) == Request(m, PathOf(t), protocol, rest) <==>
            '\0' !in Request(m, Url(t), protocol, rest)
  {
    CStringIs(rest);
    UrlWord(t);
    var line := m + " " + Url(t) + " " + protocol + "\r\n";
    assert forall k :: 0 <= k < |line| ==> line[k] != '\0';
    assert Request(m, Url(t), protocol, rest) == line + rest;
    var out := m + " " + PathOf(t) + " " + protocol + "\r\n";
    assert (out + CString(rest))[|out|..] == CString(rest) && (out + rest)[|out|..] == rest;
  }

  lemma SampleTarget(t: Target, protocol: string)
    requires t == Target("h", None, "/") && protocol == "HTTP/1"
    ensures Word(protocol) && WellFormed(t) && |Url(t)| == 9 && PathOf(t) == "/"
  {
  }

  /** A request at which the proxy fails: a body with a NUL is cut there. */
  lemma BodyCutAtNul(m: string, t: Target, protocol: string, rest: string)
    requires m == "PUT" && t == Target("h", None, "/") && protocol == "HTTP/1" && rest == "\r\nab\0cd"
    ensures Rewritten(CString(Request(m, Url(t), protocol, rest))) == Sent(Request(m, "/", protocol, rest[..4]))
  {
    assert Word(m);
    SampleTarget(t, protocol);
    CutAt(m, t, protocol, rest, 4);
  }

  lemma CutAt(m: string, t: Target, protocol: string, rest: string, n: nat)
    requires Word(m) && Word(protocol) && WellFormed(t) && Fits(m, t, protocol)
    requires |Request(m, Url(t), protocol, rest)| < 4096
    requires n < |rest| && rest[n] == '\0' && forall k :: 0 <= k < n ==> rest[k] != '\0'
    ensures Rewritten(CString(Request(m, Url(t), protocol, rest))) == Sent(Request(m, PathOf(t), protocol, rest[..n]))
  {
    CStringPrefix(rest, n);
    RewriteLossless(m, t, protocol, rest);
  }

  /** Another: a method of ten characters is written past the end of its array. */
  lemma MethodOverrun(m: string, t: Target, protocol: string, rest: string)
    requires m == "ABCDEFGHIJ" && t == Target("h", None, "/") && protocol == "HTTP/1" && rest == "\r\n"
    ensures Rewritten(CString(Request(m, Url(t), protocol, rest))) == Unknown
    ensures Understood(CString(Request(m, Url(t), protocol, rest))) == Undefined
  {
    assert Word(m);
    SampleTarget(t, protocol);
    RewriteLossless(m, t, protocol, rest);
    ParseInvertsPrint(m, t, protocol, rest);
  }
}
