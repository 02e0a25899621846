/** What the proxy's text functions are for, said without scanning: which words a request line
    consists of, which host and port a URL names, and what a request is forwarded as. */
module HttpSpec {
  import opened Basics
  import opened Decimals

  // ================================================================ words

  predicate IsSpace(c: char) { c == ' ' || '\t' <= c <= '\r' }

  predicate Word(s: string) { |s| > 0 && forall k :: 0 <= k < |s| ==> !IsSpace(s[k]) && s[k] != '\0' }

  predicate AllSpaces(s: string) { forall k :: 0 <= k < |s| ==> IsSpace(s[k]) }

  predicate EndsWord(rest: string) { rest == [] || IsSpace(rest[0]) }

  ghost predicate ReadsAs(
      text: string, a: string, m: string, b: string, url: string, c: string, protocol: string, rest: string)
  {
    && text == a + m + b + url + c + protocol + rest
    && AllSpaces(a) && Word(m) && AllSpaces(b) && b != [] && Word(url) && AllSpaces(c)
    && if protocol == [] then rest == [] else Word(protocol) && c != [] && EndsWord(rest)
  }

  /** The first three words of `text`, however they are separated; `protocol` is empty if there
      are only two. */
  ghost predicate Reads(text: string, m: string, url: string, protocol: string) {
    exists a, b, c, rest :: ReadsAs(text, a, m, b, url, c, protocol, rest)
  }

  /** They fit into `char method[10], url[1024], protocol[10]`. */
  predicate Fit(m: string, url: string, protocol: string) { |m| < 10 && |url| < 1024 && |protocol| < 10 }

  predicate Absolute(url: string) { "http://" <= url }

  // ================================================================ host and port

  /** `Undefined`: an array is overrun, or read without having been written, or `%d` meets a
      number outside of `int`. */
  datatype Parsed = Undefined | Refused | Host(hostname: string, port: int)

  predicate InInt(n: int) { -0x8000_0000 <= n < 0x8000_0000 }

  ghost predicate PortAs(s: string, host: string, sign: string, digits: string, more: string) {
    && s == host + ":" + sign + digits + more
    && 0 < |host| <= 255 && (forall k :: 0 <= k < |host| ==> host[k] != ':' && host[k] != '/')
    && (sign == "" || sign == "+" || sign == "-")
    && digits != [] && AllDigits(digits) && (more == [] || !IsDigit(more[0]))
  }

  function SignedValue(sign: string, digits: string): int
    requires AllDigits(digits)
  {
    var v: int := ValueOf(digits);
    if sign == "-" then -v else v
  }

  /** A host of at most 255 characters, a colon and a number, whatever follows. */
  ghost predicate NamesPort(s: string, host: string, port: int) {
    exists sign, digits, more :: PortAs(s, host, sign, digits, more) && port == SignedValue(sign, digits)
  }

  ghost predicate HasPort(s: string) { exists host, port :: NamesPort(s, host, port) }

  /** Everything before the first slash, up to 255 characters. */
  ghost predicate NamesHost(s: string, host: string) {
    && host <= s && 0 < |host| <= 255 && '/' !in host
    && (|host| == |s| || |host| == 255 || s[|host|] == '/')
  }

  /** The answer to a URL: refused if it does not begin with "http://" and something other than
      a slash; else the host and the port after it, if there is a number, or 80. */
  ghost predicate Denotes(url: string, r: Parsed) {
    if !Absolute(url) || |url| == 7 || url[7] == '/' then r == Refused
    else if HasPort(url[7..]) then
      match r
      case Host(host, port) => NamesPort(url[7..], host, port) && InInt(port)
      case Undefined => exists host, port :: NamesPort(url[7..], host, port) && !InInt(port)
      case Refused => false
    else r.Host? && NamesHost(url[7..], r.hostname) && r.port == 80
  }

  ghost predicate Answers(m: string, url: string, protocol: string, r: Parsed) {
    if Fit(m, url, protocol) then Denotes(url, r) else r == Undefined
  }

  // ================================================================ forwarding

  datatype Outcome = Unknown | Nothing | Sent(text: string)

  function Request(m: string, url: string, protocol: string, rest: string): string {
    m + " " + url + " " + protocol + "\r\n" + rest
  }

  /** The path of an absolute URL: from the first slash after the scheme, or "/". */
  ghost predicate IsPath(url: string, path: string)
    requires Absolute(url)
  {
    if '/' in url[7..] then exists a :: SplitsAt(url[7..], a, path) else path == "/"
  }

  ghost predicate SplitsAt(s: string, a: string, path: string) {
    s == a + path && '/' !in a && path != [] && path[0] == '/'
  }

  predicate CrLfAt(s: string, i: nat) { i + 1 < |s| && s[i] == '\r' && s[i + 1] == '\n' }

  /** What follows the first CRLF, if there is one. */
  ghost predicate IsRest(text: string, rest: string) {
    || (exists i: nat :: CrLfAt(text, i) && rest == text[i + 2..] && forall k: nat :: k < i ==> !CrLfAt(text, k))
    || (rest == "" && forall k: nat :: !CrLfAt(text, k))
  }

  function Cut(s: string): string { if |s| < 4096 then s else s[..4095] }

  /** A request goes on with the path as its target and all that followed its first line, as far
      as 4095 characters reach; nothing goes on if the URL is not absolute. */
  ghost predicate Forwards(text: string, m: string, url: string, protocol: string, sent: Outcome) {
    if !Fit(m, url, protocol) then sent == Unknown
    else if !Absolute(url) then sent == Nothing
    else if protocol == [] then sent == Unknown
    else exists path, rest :: IsPath(url, path) && IsRest(text, rest) &&
           sent == Sent(Cut(Request(m, path, protocol, rest)))
  }

  // ================================================================ printing a request

  /** A host without colon, slash, white space or NUL; a port, or none; a path that is empty or
      begins with a slash. */
  datatype Target = Target(host: string, port: Option<nat>, path: string)

  predicate WellFormed(t: Target) {
    && Word(t.host) && (forall k :: 0 <= k < |t.host| ==> t.host[k] != ':' && t.host[k] != '/')
    && (t.path == [] || (Word(t.path) && t.path[0] == '/'))
  }

  function PortText(port: Option<nat>): string { if port.Some? then ":" + Decimal(port.value) else "" }

  function PortOf(t: Target): nat { if t.port.Some? then t.port.value else 80 }

  function PathOf(t: Target): string { if t.path == [] then "/" else t.path }

  function Url(t: Target): string { "http://" + t.host + PortText(t.port) + t.path }

  predicate Fits(m: string, t: Target, protocol: string) { Fit(m, Url(t), protocol) }
}
