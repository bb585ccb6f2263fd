/** Spotify ids (ids.go): 16 bytes, written as 22 base-62 characters, alone or inside a URI.

  `Text`, `SetString` and `FillBytes` stand for the big-integer calls of the original: the
  shortest numeral, a parse that also accepts a sign, and a fixed-width write that panics when the
  number is too wide.  The round trips connect them in both directions.
 */
module SpotifyIds {
  import opened Options
  import opened Positional

  const ID_BYTES: nat := 16
  const ID_CHARS: nat := 22

  /** 2^128, the first number that 16 bytes cannot hold. */
  const LIMIT: nat := 0x1_0000_0000_0000_0000_0000_0000_0000_0000

  /** The alphabet 0-9 a-z A-Z. */
  function Symbol(d: int): char
    requires 0 <= d < 62
  {
    if d < 10 then ('0' as int + d) as char
    else if d < 36 then ('a' as int + (d - 10)) as char
    else ('A' as int + (d - 36)) as char
  }

  predicate IsSymbol(c: char) { '0' <= c <= '9' || 'a' <= c <= 'z' || 'A' <= c <= 'Z' }

  function Digit(c: char): (d: int)
    requires IsSymbol(c)
    ensures 0 <= d < 62 && Symbol(d) == c
  {
    if '0' <= c <= '9' then c as int - '0' as int
    else if 'a' <= c <= 'z' then c as int - 'a' as int + 10
    else c as int - 'A' as int + 36
  }

  predicate IsText(s: string) { forall k :: 0 <= k < |s| ==> IsSymbol(s[k]) }

  function Symbols(ds: seq<int>): (s: string)
    requires IsNumeral(62, ds)
    ensures |s| == |ds| && forall k :: 0 <= k < |s| ==> s[k] == Symbol(ds[k])
  {
    seq(|ds|, k requires 0 <= k < |ds| => Symbol(ds[k]))
  }

  function Digits(s: string): (ds: seq<int>)
    requires IsText(s)
    ensures |ds| == |s| && IsNumeral(62, ds)
  {
    seq(|s|, k requires 0 <= k < |s| => Digit(s[k]))
  }

  lemma SymbolsDigits(s: string)
    requires IsText(s)
    ensures Symbols(Digits(s)) == s
  {
  }

  lemma DigitsSymbols(ds: seq<int>)
    requires IsNumeral(62, ds)
    ensures IsText(Symbols(ds)) && Digits(Symbols(ds)) == ds
  {
    assert forall k :: 0 <= k < |ds| ==> Digit(Symbol(ds[k])) == ds[k];
  }

  /** The symbols are the digits, the lower-case and the upper-case letters, each in their order. */
  lemma Alphabet()
    ensures [Symbol(0), Symbol(10), Symbol(36)] == "0aA" && [Symbol(9), Symbol(35), Symbol(61)] == "9zZ"
    ensures forall d :: 0 <= d < 61 && d != 9 && d != 35 ==> Symbol(d + 1) as int == Symbol(d) as int + 1
  {
  }

  // ----- The big-integer calls -----

  /** `big.Int.Text(62)`: no leading zeros, and "0" for zero. */
  function Text(v: nat): string {
    if v < 62 then [Symbol(v)] else Text(v / 62) + [Symbol(v % 62)]
  }

  function Zeros(n: nat): string { seq(n, _ => '0') }

  /** `big.Int.SetString(s, 62)`: the magnitude of an optionally signed numeral. */
  function SetString(s: string): Option<nat> {
    var body := if s != "" && (s[0] == '+' || s[0] == '-') then s[1..] else s;
    if body != "" && IsText(body) then
      ValueBounds(62, Digits(body));
      Some(Value(62, Digits(body)))
    else None
  }

  /** `big.Int.FillBytes` on a 16-byte buffer; `None` is its panic. */
  function FillBytes(v: nat): Option<Bytes> {
    if v < LIMIT then Some(Numeral(256, v, ID_BYTES)) else None
  }

  // ----- The conversions -----

  datatype Result<T> = Ok(value: T) | Malformed | Panics

  function GidToBase62(id: Bytes): Result<string> {
    ValueBounds(256, id);
    var s := Text(Value(256, id));
    if |s| > ID_CHARS then Panics else Ok(Zeros(ID_CHARS - |s|) + s)
  }

  function FromBase62(s: string): Result<Bytes> {
    var v := SetString(s);
    if v == None then Malformed
    else
      match FillBytes(v.value)
      case None => Panics
      case Some(id) => Ok(id)
  }

  lemma EightBytes()
    ensures Pow(256, 8) == 0x1_0000_0000_0000_0000
  {
  }

  lemma ElevenSymbols()
    ensures Pow(62, 11) >= 0x1_0000_0000_0000_0000
  {
  }

  lemma SixteenBytes()
    ensures Pow(256, ID_BYTES) == LIMIT
  {
    EightBytes();
    PowAdd(256, 8, 8);
  }

  /** 22 symbols hold any 128-bit number. */
  lemma WideEnough()
    ensures LIMIT <= Pow(62, ID_CHARS)
  {
    ElevenSymbols();
    PowAdd(62, 11, 11);
    Squares(0x1_0000_0000_0000_0000, Pow(62, 11));
  }

  lemma Squares(x: nat, y: nat)
    requires x <= y
    ensures x * x <= y * y
  {
    assert x * x <= x * y <= y * y;
  }

  /** Padding the shortest numeral with zeros gives the fixed-width one. */
  lemma {:induction false} PaddedText(v: nat, n: nat)
    requires 0 < n && v < Pow(62, n)
    ensures |Text(v)| <= n && Zeros(n - |Text(v)|) + Text(v) == Symbols(Numeral(62, v, n))
    decreases n
  {
    assert Pow(62, n) == 62 * Pow(62, n - 1);
    assert Numeral(62, v, n) == Numeral(62, v / 62, n - 1) + [v % 62];
    if n > 1 {
      PaddedText(v / 62, n - 1);
      if v < 62 {
        assert v / 62 == 0 && v % 62 == v;
        assert Zeros(n - 1) == Zeros(n - 2) + ['0'];
      }
    } else {
      assert Pow(62, 0) == 1;
    }
  }

  lemma IdBounds(id: Bytes)
    requires |id| == ID_BYTES
    ensures 0 <= Value(256, id) < LIMIT
  {
    ValueBounds(256, id);
    SixteenBytes();
  }

  lemma EncodesAs(id: Bytes)
    requires |id| == ID_BYTES
    ensures 0 <= Value(256, id) < LIMIT
    ensures GidToBase62(id) == Ok(Symbols(Numeral(62, Value(256, id), ID_CHARS)))
  {
    IdBounds(id);
    EncodesValue(Value(256, id));
  }

  lemma EncodesValue(v: nat)
    requires v < LIMIT
    ensures |Text(v)| <= ID_CHARS
    ensures Zeros(ID_CHARS - |Text(v)|) + Text(v) == Symbols(Numeral(62, v, ID_CHARS))
  {
    WideEnough();
    PaddedText(v, ID_CHARS);
  }

  lemma IdOfValue(v: nat)
    requires v < LIMIT
    ensures Value(256, Numeral(256, v, ID_BYTES)) == v
  {
    SixteenBytes();
    ValueOfNumeral(256, v, ID_BYTES);
  }

  lemma TextOfValue(v: nat)
    requires v < LIMIT
    ensures Value(62, Numeral(62, v, ID_CHARS)) == v
  {
    WideEnough();
    ValueOfNumeral(62, v, ID_CHARS);
  }

  lemma UnsignedParse(s: string)
    requires s != "" && IsText(s)
    ensures Value(62, Digits(s)) >= 0 && SetString(s) == Some(Value(62, Digits(s)))
  {
    assert IsSymbol(s[0]);
    ValueBounds(62, Digits(s));
  }

  /** Every 16-byte id is written with exactly 22 characters, and reading them gives it back. */
  lemma EncodeDecode(id: Bytes)
    requires |id| == ID_BYTES
    ensures
      && GidToBase62(id).Ok?
      && var s := GidToBase62(id).value;
      |s| == ID_CHARS && IsText(s) && FromBase62(s) == Ok(id)
  {
    EncodesAs(id);
    var v := Value(256, id);
    var ds := Numeral(62, v, ID_CHARS);
    DigitsSymbols(ds);
    UnsignedParse(Symbols(ds));
    TextOfValue(v);
    NumeralOfValue(256, id);
  }

  lemma ReencodeValue(s: string)
    requires IsText(s) && 0 < |s| <= ID_CHARS && 0 <= Value(62, Digits(s)) < LIMIT
    ensures GidToBase62(Numeral(256, Value(62, Digits(s)), ID_BYTES)) == Ok(Zeros(ID_CHARS - |s|) + s)
  {
    var v := Value(62, Digits(s));
    IdOfValue(v);
    EncodesAs(Numeral(256, v, ID_BYTES));
    PadDigits(Digits(s), ID_CHARS - |s|);
    SymbolsDigits(s);
  }

  /** A text of at most 22 symbols decodes exactly when its value fits 128 bits, and then it
    encodes to itself, padded with zeros to 22 characters. */
  lemma DecodeEncode(s: string)
    requires IsText(s) && 0 < |s| <= ID_CHARS
    ensures FromBase62(s).Ok? <==> Value(62, Digits(s)) < LIMIT
    ensures !FromBase62(s).Ok? ==> FromBase62(s) == Panics
    ensures FromBase62(s).Ok? ==> GidToBase62(FromBase62(s).value) == Ok(Zeros(ID_CHARS - |s|) + s)
  {
    UnsignedParse(s);
    if Value(62, Digits(s)) < LIMIT {
      ReencodeValue(s);
    }
  }

  /** A leading sign is read and dropped, so a signed text decodes like the unsigned one; only the
    URI pattern keeps such texts out. */
  lemma SignDropped(s: string)
    requires IsText(s) && s != ""
    ensures FromBase62("-" + s) == FromBase62(s) == FromBase62("+" + s)
  {
    UnsignedParse(s);
    assert ("-" + s)[1..] == s && ("+" + s)[1..] == s;
  }

  lemma PadDigits(ds: seq<int>, n: nat)
    requires IsNumeral(62, ds)
    ensures Value(62, ds) >= 0
    ensures Symbols(Numeral(62, Value(62, ds), n + |ds|)) == Zeros(n) + Symbols(ds)
  {
    var padded := seq(n, _ => 0) + ds;
    LeadingZeros(n, ds);
    ValueBounds(62, ds);
    NumeralOfValue(62, padded);
    assert |padded| == n + |ds|;
  }

  lemma {:induction false} LeadingZeros(n: nat, ds: seq<int>)
    ensures Value(62, seq(n, _ => 0) + ds) == Value(62, ds)
    decreases n + |ds|
  {
    var padded := seq(n, _ => 0) + ds;
    if ds != [] {
      assert padded[..|padded| - 1] == seq(n, _ => 0) + ds[..|ds| - 1];
      LeadingZeros(n, ds[..|ds| - 1]);
    } else if n > 0 {
      assert padded[..|padded| - 1] == seq(n - 1, _ => 0) + ds;
      LeadingZeros(n - 1, ds);
    } else {
      assert padded == ds;
    }
  }

  // ----- The URI form -----

  const SCHEME := "spotify:"

  predicate IsTypeName(s: string) { s != "" && forall k :: 0 <= k < |s| ==> 'a' <= s[k] <= 'z' }

  function Uri(typ: string, id: Bytes): Result<string> {
    match GidToBase62(id)
    case Ok(s) => Ok(SCHEME + typ + ":" + s)
    case Malformed => Malformed
    case Panics => Panics
  }

  /** The end of the run of lower-case letters that starts at `i`. */
  function LowerEnd(u: string, i: nat): (e: nat)
    requires i <= |u|
    ensures i <= e <= |u|
    ensures forall k :: i <= k < e ==> 'a' <= u[k] <= 'z'
    ensures e < |u| ==> !('a' <= u[e] <= 'z')
    decreases |u| - i
  {
    if i < |u| && 'a' <= u[i] <= 'z' then LowerEnd(u, i + 1) else i
  }

  datatype TypedId = TypedId(typ: string, id: Bytes)

  /** The two groups of the URI pattern, as a matcher finds them. */
  function ParseUri(u: string): Option<(string, string)> {
    if |u| < |SCHEME| || u[..|SCHEME|] != SCHEME then None
    else
      var e := LowerEnd(u, |SCHEME|);
      if e == |SCHEME| || e == |u| || u[e] != ':' then None
      else
        var s := u[e + 1..];
        if (|s| == 21 || |s| == 22) && IsText(s) then Some((u[|SCHEME|..e], s)) else None
  }

  function FromUri(u: string): Result<TypedId> {
    match ParseUri(u)
    case None => Malformed
    case Some((typ, s)) =>
      match FromBase62(s)
      case Ok(id) => Ok(TypedId(typ, id))
      case Malformed => Malformed
      case Panics => Panics
  }

  /** The pattern itself: `spotify:`, a type name, a colon, and 21 or 22 symbols to the end. */
  predicate Matches(u: string, typ: string, s: string) {
    u == SCHEME + typ + ":" + s && IsTypeName(typ) && (|s| == 21 || |s| == 22) && IsText(s)
  }

  lemma ParseMatches(u: string, typ: string, s: string)
    ensures ParseUri(u) == Some((typ, s)) <==> Matches(u, typ, s)
  {
    if ParseUri(u) == Some((typ, s)) {
      var e := LowerEnd(u, |SCHEME|);
      assert u == u[..|SCHEME|] + u[|SCHEME|..e] + [u[e]] + u[e + 1..];
      assert [u[e]] == ":";
    }
    if Matches(u, typ, s) {
      var e := |SCHEME| + |typ|;
      assert u[..|SCHEME|] == SCHEME;
      assert forall k :: |SCHEME| <= k < e ==> u[k] == typ[k - |SCHEME|];
      assert u[e] == ':';
      assert LowerEnd(u, |SCHEME|) == e;
      assert u[|SCHEME|..e] == typ && u[e + 1..] == s;
    }
  }

  /** The id part is what follows the last colon. */
  lemma SplitUnique(typ: string, s: string, typ': string, s': string)
    requires SCHEME + typ + ":" + s == SCHEME + typ' + ":" + s'
    requires IsText(s) && IsText(s')
    ensures typ == typ' && s == s'
  {
    var u := SCHEME + typ + ":" + s;
    var p, p' := |SCHEME| + |typ|, |SCHEME| + |typ'|;
    assert u[p] == ':' && u[p'] == ':';
    assert forall k :: p < k < |u| ==> u[k] == s[k - p - 1];
    assert forall k :: p' < k < |u| ==> u[k] == s'[k - p' - 1];
    assert p == p';
    assert typ == u[|SCHEME|..p] == typ' && s == u[p + 1..] == s';
  }

  /** The URI of an id reads back as that id exactly when its type is a run of lower-case
    letters; any other type makes the URI unreadable. */
  lemma UriRoundTrip(typ: string, id: Bytes)
    requires |id| == ID_BYTES
    ensures Uri(typ, id).Ok?
    ensures IsTypeName(typ) ==> FromUri(Uri(typ, id).value) == Ok(TypedId(typ, id))
    ensures !IsTypeName(typ) ==> FromUri(Uri(typ, id).value) == Malformed
  {
    EncodeDecode(id);
    var s := GidToBase62(id).value;
    var u := Uri(typ, id).value;
    ParseMatches(u, typ, s);
    if !IsTypeName(typ) && ParseUri(u).Some? {
      var (typ', s') := ParseUri(u).value;
      ParseMatches(u, typ', s');
      SplitUnique(typ, s, typ', s');
      assert false;
    }
  }

  lemma TwentyOneSymbols()
    ensures Pow(62, 21) < LIMIT
  {
    assert Pow(62, 10) == 839_299_365_868_340_224;
    PowAdd(62, 11, 10);
    assert Pow(62, 11) == 62 * Pow(62, 10);
  }

  lemma ShortValue(ds: seq<int>)
    requires IsNumeral(62, ds) && |ds| < ID_CHARS
    ensures Value(62, ds) < LIMIT
  {
    var padded := seq(21 - |ds|, _ => 0) + ds;
    LeadingZeros(21 - |ds|, ds);
    ValueBounds(62, padded);
    assert |padded| == 21;
    TwentyOneSymbols();
  }

  /** Every text of at most 21 symbols decodes. */
  lemma ShortDecodes(s: string)
    requires IsText(s) && 0 < |s| < ID_CHARS
    ensures FromBase62(s).Ok? && Value(62, Digits(s)) < LIMIT
  {
    ShortValue(Digits(s));
    DecodeEncode(s);
  }

  /** A URI of the pattern is readable exactly when its id is below 2^128, as every 21-character id
    is, and makes the reader panic otherwise.  It is rebuilt from what was read, except that a
    21-character id gains a leading zero. */
  lemma UriRebuilt(u: string, typ: string, s: string)
    requires Matches(u, typ, s)
    ensures FromUri(u).Ok? <==> Value(62, Digits(s)) < LIMIT
    ensures !FromUri(u).Ok? ==> FromUri(u) == Panics
    ensures |s| == 21 ==> FromUri(u).Ok?
    ensures
      FromUri(u).Ok? ==>
        var back := Uri(typ, FromUri(u).value.id);
        && FromUri(u).value.typ == typ
        && back == Ok(SCHEME + typ + ":" + (Zeros(ID_CHARS - |s|) + s))
        && (back == Ok(u) <==> |s| == ID_CHARS)
  {
    ParseMatches(u, typ, s);
    DecodeEncode(s);
    if |s| == ID_CHARS {
      assert Zeros(0) + s == s;
    } else {
      ShortDecodes(s);
    }
  }
}
