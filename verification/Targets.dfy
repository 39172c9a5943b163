/** The scan target: host normalisation and the `scan_*` variables. */
module Targets {
  import opened Prelude
  import opened Runtime

  datatype Url = Url(https: bool, host: Option<Str>, port: Option<u16>)

  /** The URL and IP-address parsers of the foreign libraries. */
  datatype Resolver = Resolver(
    parseUrl: Str -> Option<Url>,
    parseIp: Str -> Option<Str>)  // the canonical text of an IP literal

  type Endpoint = (Str, u16)

  const SCAN_HOST: Str := Ascii("scan_host")
  const SCAN_PORT: Str := Ascii("scan_port")
  const SCAN_URL: Str := Ascii("scan_url")

  function TrimBrackets(host: Str): Str {
    if |host| > 0 && host[0] == 0x5B then TrimBrackets(host[1..]) else TrimClosing(host)
  }

  function TrimClosing(host: Str): Str {
    if |host| > 0 && host[|host| - 1] == 0x5D then TrimClosing(host[..|host| - 1]) else host
  }

  /** Equivalent spellings of an IP literal, and any case of a host name, get one form. */
  function NormalizeHost(r: Resolver, host: Str): Str {
    match r.parseIp(TrimBrackets(host))
    case Some(canonical) => canonical
    case None => LowerAscii(host)
  }

  function ScanTargetHostPort(r: Resolver, baseUrl: Str): Option<Endpoint> {
    match r.parseUrl(baseUrl)
    case Some(Url(https, Some(host), port)) =>
      var p: u16 := if port.Some? then port.value else if https then 443 else 80;
      Some((NormalizeHost(r, host), p))
    case _ => None
  }

  /** Decimal digits of a number, most significant first. */
  function Decimal(n: nat): Str {
    if n < 10 then [0x30 + n] else Decimal(n / 10) + [0x30 + n % 10]
  }

  /** The variables the pre-run port check resolves hosts with. */
  function ScanTargetVariables(r: Resolver, baseUrl: Str): Variables {
    var m: Variables :=
      match ScanTargetHostPort(r, baseUrl)
      case Some(e) => map[SCAN_HOST := Text(e.0)][SCAN_PORT := Text(Decimal(e.1))]
      case None => map[];
    if baseUrl == [] then m else m[SCAN_URL := Text(baseUrl)]
  }

  /** The variables the executor adds to its context before the first instruction. */
  function InjectScanTarget(r: Resolver, baseUrl: Str, variables: Variables): Variables {
    var m :=
      match ScanTargetHostPort(r, baseUrl)
      case Some(e) => variables[SCAN_HOST := Text(e.0)][SCAN_PORT := Text(Decimal(e.1))]
      case None => variables;
    if baseUrl == [] then m else m[SCAN_URL := Text(baseUrl)]
  }

  lemma InjectedEqualsPrechecked(r: Resolver, baseUrl: Str)
    ensures InjectScanTarget(r, baseUrl, map[]) == ScanTargetVariables(r, baseUrl)
    ensures forall n | n in ScanTargetVariables(r, baseUrl) ::
              n in {SCAN_HOST, SCAN_PORT, SCAN_URL} && ScanTargetVariables(r, baseUrl)[n].Text?
  {
  }

  // ---------- what normalisation forgets ----------

  lemma {:induction false} TrimClosingLower(host: Str)
    ensures TrimClosing(LowerAscii(host)) == LowerAscii(TrimClosing(host))
    decreases |host|
  {
    if |host| > 0 && host[|host| - 1] == 0x5D {
      var n := |host| - 1;
      assert LowerAscii(host)[..n] == LowerAscii(host[..n]);
      TrimClosingLower(host[..n]);
    }
  }

  lemma {:induction false} TrimBracketsLower(host: Str)
    ensures TrimBrackets(LowerAscii(host)) == LowerAscii(TrimBrackets(host))
  {
    if |host| > 0 && host[0] == 0x5B {
      assert LowerAscii(host)[1..] == LowerAscii(host[1..]);
      TrimBracketsLower(host[1..]);
    } else {
      TrimClosingLower(host);
    }
  }

  /** When the address parser does not mind case, neither does normalisation. */
  lemma CaseDoesNotMatter(r: Resolver, host: Str)
    requires r.parseIp(LowerAscii(TrimBrackets(host))) == r.parseIp(TrimBrackets(host))
    ensures NormalizeHost(r, LowerAscii(host)) == NormalizeHost(r, host)
  {
    TrimBracketsLower(host);
    assert LowerAscii(LowerAscii(host)) == LowerAscii(host);
  }

  /** An address literal and the same literal in brackets normalise alike. */
  lemma BracketsDoNotMatter(r: Resolver, host: Str)
    requires TrimBrackets(host) == host && host != [] && r.parseIp(host).Some?
    ensures NormalizeHost(r, [0x5B] + host + [0x5D]) == NormalizeHost(r, host)
  {
    var bracketed := [0x5B] + host + [0x5D];
    NothingToTrim(host);
    assert bracketed[1..] == host + [0x5D];
    assert (host + [0x5D])[..|host|] == host;
    assert TrimBrackets(host + [0x5D]) == TrimClosing(host + [0x5D]) == host;
  }

  lemma {:induction false} TrimClosingLength(host: Str)
    ensures |TrimClosing(host)| <= |host|
    ensures host != [] && host[|host| - 1] == 0x5D ==> |TrimClosing(host)| < |host|
    decreases |host|
  {
    if |host| > 0 && host[|host| - 1] == 0x5D {
      TrimClosingLength(host[..|host| - 1]);
    }
  }

  lemma {:induction false} TrimBracketsLength(host: Str)
    ensures |TrimBrackets(host)| <= |host|
  {
    if |host| > 0 && host[0] == 0x5B {
      TrimBracketsLength(host[1..]);
    } else {
      TrimClosingLength(host);
    }
  }

  lemma NothingToTrim(host: Str)
    requires TrimBrackets(host) == host && host != []
    ensures host[0] != 0x5B && host[|host| - 1] != 0x5D
  {
    if host[0] == 0x5B {
      TrimBracketsLength(host[1..]);
    } else {
      TrimClosingLength(host);
    }
  }

  function FromDecimal(digits: Str): nat
    requires forall i | 0 <= i < |digits| :: 0x30 <= digits[i] <= 0x39
  {
    if digits == [] then 0 else 10 * FromDecimal(digits[..|digits| - 1]) + (digits[|digits| - 1] - 0x30)
  }

  /** The port's text is a number again, the same one, without leading zeros. */
  lemma {:induction false} DecimalRoundTrip(n: nat)
    ensures forall i | 0 <= i < |Decimal(n)| :: 0x30 <= Decimal(n)[i] <= 0x39
    ensures FromDecimal(Decimal(n)) == n
    ensures Decimal(n) != [] && (n > 0 ==> Decimal(n)[0] != 0x30)
  {
    if n >= 10 {
      DecimalRoundTrip(n / 10);
      assert Decimal(n)[..|Decimal(n)| - 1] == Decimal(n / 10);
    }
  }

  // ---------- what the names are bound to ----------

  function Copies(b: byte, n: nat): Str { if n == 0 then [] else [b] + Copies(b, n - 1) }

  lemma {:induction false} CopiesSnoc(b: byte, n: nat)
    ensures Copies(b, n + 1) == Copies(b, n) + [b]
  {
    if n > 0 {
      CopiesSnoc(b, n - 1);
    }
  }

  lemma {:induction false} OpeningTrimmed(n: nat, rest: Str)
    requires rest == [] || rest[0] != 0x5B
    ensures TrimBrackets(Copies(0x5B, n) + rest) == TrimClosing(rest)
  {
    var s := Copies(0x5B, n) + rest;
    if n == 0 {
      assert s == rest;
    } else {
      assert s[1..] == Copies(0x5B, n - 1) + rest;
      OpeningTrimmed(n - 1, rest);
    }
  }

  lemma {:induction false} ClosingTrimmed(core: Str, n: nat)
    requires core == [] || core[|core| - 1] != 0x5D
    ensures TrimClosing(core + Copies(0x5D, n)) == core
  {
    var s := core + Copies(0x5D, n);
    if n == 0 {
      assert s == core;
    } else {
      CopiesSnoc(0x5D, n - 1);
      assert s[..|s| - 1] == core + Copies(0x5D, n - 1);
      ClosingTrimmed(core, n - 1);
    }
  }

  /** Whatever brackets stand around it, an address is written canonically; any other host keeps everything but
      the case of its ASCII letters. */
  lemma NormalMeaning(r: Resolver, opening: nat, core: Str, closing: nat)
    requires core != [] && core[0] != 0x5B && core[|core| - 1] != 0x5D
    ensures var host := Copies(0x5B, opening) + (core + Copies(0x5D, closing));
            var normal := NormalizeHost(r, host);
            if r.parseIp(core).Some? then normal == r.parseIp(core).value
            else
              && |normal| == |host|
              && forall i | 0 <= i < |host| ::
                   normal[i] == if 0x41 <= host[i] <= 0x5A then host[i] + 0x20 else host[i]
  {
    OpeningTrimmed(opening, core + Copies(0x5D, closing));
    ClosingTrimmed(core, closing);
  }

  /** The variables of a run's target: its URL unless that is empty; host and port when the URL has a host, the port
      in decimal, 443 for `https` and 80 otherwise when none is given. */
  lemma ScanVariables(r: Resolver, baseUrl: Str)
    ensures var v := InjectScanTarget(r, baseUrl, map[]);
            && (Ascii("scan_url") in v <==> baseUrl != [])
            && (baseUrl != [] ==> v[Ascii("scan_url")] == Text(baseUrl))
            && match r.parseUrl(baseUrl)
               case Some(Url(https, Some(host), port)) =>
                 && Ascii("scan_host") in v && v[Ascii("scan_host")] == Text(NormalizeHost(r, host))
                 && Ascii("scan_port") in v && v[Ascii("scan_port")].Text?
                 && var digits := v[Ascii("scan_port")].text;
                    && (forall i | 0 <= i < |digits| :: 0x30 <= digits[i] <= 0x39)
                    && (port.Some? ==> FromDecimal(digits) == port.value)
                    && (port.None? ==> FromDecimal(digits) == if https then 443 else 80)
               case _ => Ascii("scan_host") !in v && Ascii("scan_port") !in v
  {
    hide NormalizeHost, Decimal, FromDecimal;
    ScanNames();
    match r.parseUrl(baseUrl)
    case Some(Url(https, Some(host), port)) =>
      DecimalRoundTrip(if port.Some? then port.value else if https then 443 else 80);
    case _ =>
  }

  lemma ScanNames()
    ensures SCAN_HOST == Ascii("scan_host") && SCAN_PORT == Ascii("scan_port") && SCAN_URL == Ascii("scan_url")
    ensures SCAN_HOST != SCAN_PORT && SCAN_HOST != SCAN_URL && SCAN_PORT != SCAN_URL
  {
    assert |SCAN_URL| == 8 && |SCAN_HOST| == 9;
    assert SCAN_HOST[5] != SCAN_PORT[5];
  }
}
