/** The parts of Go's net/url and net packages that the source resolver
    relies on: a URL reduced to its authority and raw query, splitting an
    authority into host and port, reading the port, decoding a decimal
    port number and reading query parameters. */
module Urls {
  import opened Wrappers
  import opened Strings

  /** url.URL as the resolver reads it: the authority ("host:port", kept in
      Go's Host field) and the undecoded query string. */
  datatype Url = Url(Host: string, RawQuery: string)

  /** The ways net.SplitHostPort refuses an authority. */
  datatype AddrError = MissingPort | TooManyColons | UnexpectedBracket

  predicate IsDigit(c: char) { '0' <= c <= '9' }

  predicate IsDigits(s: string) { forall i :: 0 <= i < |s| ==> IsDigit(s[i]) }

  /** Index of the last occurrence of c in s, or -1. */
  function LastIndex(s: string, c: char): (i: int)
    ensures -1 <= i < |s|
    ensures i >= 0 ==> s[i] == c && c !in s[i + 1..]
    ensures i == -1 ==> c !in s
  {
    if |s| == 0 then -1
    else if s[|s| - 1] == c then |s| - 1
    else
      var j := LastIndex(s[..|s| - 1], c);
      assert s == s[..|s| - 1] + [s[|s| - 1]];
      j
  }

  /** The last occurrence is the one with no occurrence after it. */
  lemma {:induction false} LastIndexIs(s: string, c: char, k: nat)
    requires k < |s| && s[k] == c
    requires forall j :: k < j < |s| ==> s[j] != c
    ensures LastIndex(s, c) == k
  {
    if k < |s| - 1 {
      LastIndexIs(s[..|s| - 1], c, k);
    }
  }

  /** net.SplitHostPort for the non-bracketed forms: the host is what comes
      before the last ':', the port what comes after. */
  function SplitHostPort(authority: string): (r: Result<(string, string), AddrError>)
    ensures r == Failure(MissingPort) <==> ':' !in authority
    ensures r.Success? ==>
      && ':' !in r.value.0 && ':' !in r.value.1
      && '[' !in authority && ']' !in authority
  {
    var i := LastIndex(authority, ':');
    if i < 0 then Failure(MissingPort)
    else if ':' in authority[..i] then Failure(TooManyColons)
    else if '[' in authority || ']' in authority then Failure(UnexpectedBracket)
    else Success((authority[..i], authority[i + 1..]))
  }

  /** A split authority is its host, a ':' and its port. */
  lemma SplitHostPortParts(authority: string)
    requires SplitHostPort(authority).Success?
    ensures authority == SplitHostPort(authority).value.0 + ":" + SplitHostPort(authority).value.1
  {
    var i := LastIndex(authority, ':');
    assert authority == authority[..i] + [authority[i]] + authority[i + 1..];
  }

  /** An authority built from a colon-free, bracket-free host and port
      splits back into them. */
  lemma SplitHostPortOf(host: string, port: string)
    requires ':' !in host && ':' !in port
    requires '[' !in host && ']' !in host && '[' !in port && ']' !in port
    ensures SplitHostPort(host + ":" + port) == Success((host, port))
  {
    var a := host + ":" + port;
    assert a[..|host|] == host && a[|host| + 1..] == port;
    assert forall k :: |host| < k < |a| ==> a[k] == port[k - |host| - 1];
    LastIndexIs(a, ':', |host|);
    assert forall k :: 0 <= k < |a| ==> a[k] != '[' && a[k] != ']' by {
      forall k | 0 <= k < |a| ensures a[k] != '[' && a[k] != ']' {
        if k < |host| { assert a[k] == host[k]; }
        else if k > |host| { assert a[k] == port[k - |host| - 1]; }
      }
    }
  }

  /** URL.Port(): the digits after the last ':', or "" when there are none
      or something other than digits follows that ':'. */
  function Port(authority: string): (port: string)
    ensures IsDigits(port)
    ensures port != "" ==>
      && |port| < |authority|
      && authority[|authority| - |port| - 1] == ':'
      && authority[|authority| - |port|..] == port
  {
    var i := LastIndex(authority, ':');
    if i >= 0 && IsDigits(authority[i + 1..]) then authority[i + 1..] else ""
  }

  /** The host a URL names is ignored by Port: any host with the same port
      text gives the same port. */
  lemma PortAfterHost(host: string, digits: string)
    requires IsDigits(digits)
    ensures Port(host + [':'] + digits) == digits
  {
    var a := host + [':'] + digits;
    assert a[|host| + 1..] == digits;
    assert forall k :: |host| < k < |a| ==> IsDigit(a[k]);
    LastIndexIs(a, ':', |host|);
  }

  /** Value of a string of decimal digits (leading zeros allowed, as in
      strconv.ParseUint). */
  function DecimalValue(s: string): nat
    requires IsDigits(s)
  {
    if |s| == 0 then 0
    else DecimalValue(s[..|s| - 1]) * 10 + (s[|s| - 1] as int - '0' as int)
  }

  /** The canonical decimal spelling of n. */
  function Decimal(n: nat): (s: string)
    ensures |s| >= 1 && IsDigits(s)
  {
    var d := ['0' + ((n % 10) as char)];
    if n < 10 then d else Decimal(n / 10) + d
  }

  lemma {:induction false} DecimalValueOfDecimal(n: nat)
    ensures DecimalValue(Decimal(n)) == n
  {
    var s := Decimal(n);
    var d := ['0' + ((n % 10) as char)];
    if n < 10 {
      assert s[..0] == [];
    } else {
      DecimalValueOfDecimal(n / 10);
      assert s[..|s| - 1] == Decimal(n / 10);
    }
  }

  /** Why a port text is not a port number. */
  datatype PortError = NoPortNumber | PortOutOfRange(value: nat)

  const MaxPort: nat := 65535

  /** Decodes the port text of an authority as a port number 1..65535. */
  function ParsePort(text: string): (r: Result<nat, PortError>)
    requires IsDigits(text)
    ensures r.Success? ==> 1 <= r.value <= MaxPort && r.value == DecimalValue(text)
    ensures r.Success? <==> text != "" && 1 <= DecimalValue(text) <= MaxPort
  {
    if text == "" then Failure(NoPortNumber)
    else
      var v := DecimalValue(text);
      if 1 <= v <= MaxPort then Success(v) else Failure(PortOutOfRange(v))
  }

  /** Decoding a port number's own spelling gives it back. */
  lemma ParseDecimalPort(p: nat)
    requires 1 <= p <= MaxPort
    ensures ParsePort(Decimal(p)) == Success(p)
  {
    DecimalValueOfDecimal(p);
  }

  /** One key=value parameter of a query string. */
  datatype Param = Param(key: string, value: string)

  /** A non-empty piece of the query: the key is what comes before the
      first '=', the value what comes after (an empty value without '='). */
  function ParseParam(piece: string): (p: Param)
    ensures '=' !in p.key
  {
    if '=' in piece then
      var i := FirstIndex(piece, '=');
      Param(piece[..i], piece[i + 1..])
    else Param(piece, "")
  }

  /** Index of the first occurrence of c in s, which must occur. */
  function FirstIndex(s: string, c: char): (i: nat)
    requires c in s
    ensures i < |s| && s[i] == c && c !in s[..i]
  {
    if s[0] == c then 0
    else
      var j := FirstIndex(s[1..], c);
      assert s[1..][..j] == s[1..j + 1];
      j + 1
  }

  /** url.ParseQuery without unescaping: the '&'-separated pieces, empty
      pieces skipped, each read as a parameter. */
  function ParseQuery(raw: string): (params: seq<Param>)
    ensures forall i :: 0 <= i < |params| ==> EncodableParam(params[i])
  {
    ParsePieces(Split(raw, '&'))
  }

  function ParsePieces(pieces: seq<string>): (params: seq<Param>)
    requires forall i :: 0 <= i < |pieces| ==> '&' !in pieces[i]
    ensures forall i :: 0 <= i < |params| ==> EncodableParam(params[i])
  {
    if |pieces| == 0 then []
    else if pieces[0] == "" then ParsePieces(pieces[1..])
    else [ParseParam(pieces[0])] + ParsePieces(pieces[1..])
  }

  /** Values.Get: the first value given for key, "" when there is none. */
  function Lookup(params: seq<Param>, key: string): (v: string)
    ensures v != "" ==> exists i :: 0 <= i < |params| && params[i] == Param(key, v)
    ensures (forall i :: 0 <= i < |params| ==> params[i].key != key) ==> v == ""
    ensures forall i :: 0 <= i < |params| && params[i].key == key
                     && (forall j :: 0 <= j < i ==> params[j].key != key)
                     ==> v == params[i].value
  {
    if |params| == 0 then ""
    else if params[0].key == key then params[0].value
    else Lookup(params[1..], key)
  }

  /** URL.Query().Get(key). */
  function QueryGet(u: Url, key: string): string
  {
    Lookup(ParseQuery(u.RawQuery), key)
  }

  /** The query string a list of parameters encodes to. */
  function EncodeQuery(params: seq<Param>): string
  {
    Join(EncodePieces(params), '&')
  }

  function EncodePieces(params: seq<Param>): (pieces: seq<string>)
    ensures |pieces| == |params|
    ensures forall i :: 0 <= i < |params| ==> pieces[i] == params[i].key + "=" + params[i].value
  {
    if |params| == 0 then [] else [params[0].key + "=" + params[0].value] + EncodePieces(params[1..])
  }

  /** A parameter that survives encoding unchanged: no '&' anywhere and no
      '=' in its key. */
  predicate EncodableParam(p: Param)
  {
    '&' !in p.key && '&' !in p.value && '=' !in p.key
  }

  predicate Encodable(params: seq<Param>)
  {
    forall i :: 0 <= i < |params| ==> EncodableParam(params[i])
  }

  /** Parsing an encoded query gives back its parameters, in order. */
  lemma ParseEncodeQuery(params: seq<Param>)
    requires Encodable(params)
    ensures ParseQuery(EncodeQuery(params)) == params
  {
    var pieces := EncodePieces(params);
    if |params| == 0 {
      assert Split("", '&') == [""];
    } else {
      assert forall i :: 0 <= i < |pieces| ==> '&' !in pieces[i];
      SplitJoin(pieces, '&');
      ParsePiecesOfEncoded(params);
    }
  }

  lemma {:induction false} ParsePiecesOfEncoded(params: seq<Param>)
    requires Encodable(params)
    ensures ParsePieces(EncodePieces(params)) == params
  {
    if |params| > 0 {
      var p := params[0];
      var piece := p.key + "=" + p.value;
      assert piece[|p.key|] == '=';
      assert ParseParam(piece) == p by {
        assert piece[..|p.key|] == p.key;
        assert piece[|p.key| + 1..] == p.value;
      }
      assert EncodePieces(params)[1..] == EncodePieces(params[1..]);
      ParsePiecesOfEncoded(params[1..]);
    }
  }
}
