/**
 The text order format: `u=..|s=..|p=..|q=..|d=..|t=..`. The parser is the
 gateway's, byte for byte, including what it does with malformed input; the
 printer is the one the test client uses. strtod is a parameter.
 */
module OrderText {
  import opened Bits
  import opened Framing
  import opened Options

  const PIPE: Byte := 124   // '|'
  const SPACE: Byte := 32
  const EQUALS: Byte := 61  // '='

  datatype Side = Buy | Sell

  datatype Kind = Limit | Market | Ioc | Fok

  /** bt_order_request_t without its timestamp; symbol is the 16-byte array. */
  datatype Request = Request(
    id: nat, user: nat, symbol: seq<Byte>, price: int, quantity: nat, side: Side, kind: Kind)

  function Blank(): Request {
    Request(0, 0, seq(16, _ => 0), 0, 0, Buy, Limit)
  }

  // ---------------------------------------------------------------------
  // C library routines
  // ---------------------------------------------------------------------

  /** memchr: distance to the first c, or |s|. */
  function IndexOf(s: seq<Byte>, c: Byte): (n: nat)
    ensures n <= |s| && (n < |s| ==> s[n] == c)
  {
    if s == [] || s[0] == c then 0 else 1 + IndexOf(s[1..], c)
  }

  /** The characters of a NUL-terminated string. */
  function CString(s: seq<Byte>): seq<Byte> {
    s[..IndexOf(s, 0)]
  }

  predicate IsDigit(b: Byte) { 48 <= b <= 57 }

  predicate IsSpace(b: Byte) { b == 32 || 9 <= b <= 13 }

  function SkipSpace(s: seq<Byte>): seq<Byte> {
    if s != [] && IsSpace(s[0]) then SkipSpace(s[1..]) else s
  }

  /** Value of the digits at the front of s, continuing from acc. */
  function DigitsValue(s: seq<Byte>, acc: nat): nat {
    if s != [] && IsDigit(s[0]) then DigitsValue(s[1..], acc * 10 + (s[0] as nat - 48)) else acc
  }

  /** strtoull(s, NULL, 10) and, on this platform, strtoul: blanks, a sign, digits; saturating. */
  function ParseUnsigned(s: seq<Byte>): nat {
    var t := SkipSpace(CString(s));
    var signed := t != [] && (t[0] == 43 || t[0] == 45);
    var v := DigitsValue(if signed then t[1..] else t, 0);
    if v >= WORD then WORD - 1
    else if signed && t[0] == 45 then (WORD - v) % WORD
    else v
  }

  // ---------------------------------------------------------------------
  // The parser
  // ---------------------------------------------------------------------

  /** The 31-byte value buffer. */
  function Buffer(value: seq<Byte>): seq<Byte> {
    if |value| < 31 then value else value[..31]
  }

  function First(value: seq<Byte>): Byte {
    if value == [] then 0 else value[0]
  }

  function SetSymbol(symbol: seq<Byte>, value: seq<Byte>): (r: seq<Byte>)
    requires |symbol| == 16
    ensures |r| == 16
  {
    var n := if |value| < 15 then |value| else 15;
    value[..n] + [0] + symbol[n + 1..]
  }

  function SideOf(c: Byte): Side {
    if c == 83 || c == 115 then Sell else Buy
  }

  function KindOf(c: Byte): Kind {
    if c == 77 then Market else if c == 73 then Ioc else if c == 70 then Fok else Limit
  }

  /** Effect of one key=value pair; only one-letter keys are known. */
  function ApplyField(r: Request, key: seq<Byte>, value: seq<Byte>, price: seq<Byte> -> int): (r': Request)
    requires |r.symbol| == 16
    ensures |r'.symbol| == 16
  {
    if key == [117] then r.(user := ParseUnsigned(Buffer(value)))
    else if key == [115] then r.(symbol := SetSymbol(r.symbol, value))
    else if key == [112] then r.(price := price(Buffer(value)))
    else if key == [113] then r.(quantity := ParseUnsigned(Buffer(value)) % HALF)
    else if key == [100] then r.(side := SideOf(First(value)))
    else if key == [116] then r.(kind := KindOf(First(value)))
    else r
  }

  function SkipSeparators(s: seq<Byte>): (r: seq<Byte>)
    ensures |r| <= |s|
  {
    if s != [] && (s[0] == PIPE || s[0] == SPACE) then SkipSeparators(s[1..]) else s
  }

  /** The parse of the bytes that are left. Each round consumes at least the '='. */
  function ParseRest(s: seq<Byte>, r: Request, price: seq<Byte> -> int): (r': Request)
    requires |r.symbol| == 16
    ensures |r'.symbol| == 16
    decreases |s|, 1
  {
    ParsePair(SkipSeparators(s), r, price)
  }

  /** The same once the separators are skipped. */
  function ParsePair(t: seq<Byte>, r: Request, price: seq<Byte> -> int): (r': Request)
    requires |r.symbol| == 16
    ensures |r'.symbol| == 16
    decreases |t|, 0
  {
    var eq := IndexOf(t, EQUALS);
    if eq == |t| then r
    else
      var v := t[eq + 1..];
      var n := IndexOf(v, PIPE);
      ParseRest(v[n..], ApplyField(r, t[..eq], v[..n], price), price)
  }

  datatype Parsed = Rejected | Accepted(request: Request)

  function Parse(s: seq<Byte>, price: seq<Byte> -> int): Parsed {
    var r := ParseRest(s, Blank(), price);
    if r.symbol[0] != 0 then Accepted(r) else Rejected
  }

  /** The pair that t starts with. */
  predicate Splits(t: seq<Byte>, key: seq<Byte>, value: seq<Byte>, rest: seq<Byte>) {
    var eq := IndexOf(t, EQUALS);
    eq < |t| && key == t[..eq]
    && var v := t[eq + 1..];
    var n := IndexOf(v, PIPE);
    value == v[..n] && rest == v[n..]
  }

  lemma ParseUnfold(s: seq<Byte>, key: seq<Byte>, value: seq<Byte>, rest: seq<Byte>, r: Request,
                    price: seq<Byte> -> int)
    requires |r.symbol| == 16 && Splits(SkipSeparators(s), key, value, rest)
    ensures ParseRest(s, r, price) == ParseRest(rest, ApplyField(r, key, value, price), price)
  {
  }

  /** One round of the cursor loop: from p the separators end at q, the '=' is at eq, the value ends at ve. */
  lemma ParseRound(s: seq<Byte>, p: nat, q: nat, eq: nat, ve: nat, r: Request, price: seq<Byte> -> int)
    requires p <= q <= eq < ve <= |s| && |r.symbol| == 16
    requires SkipSeparators(s[p..]) == s[q..]
    requires eq - q == IndexOf(s[q..], EQUALS) && ve - eq - 1 == IndexOf(s[eq + 1..], PIPE)
    ensures ParseRest(s[p..], r, price) == ParseRest(s[ve..], ApplyField(r, s[q..eq], s[eq + 1..ve], price), price)
  {
    RoundSplits(s, q, eq, ve);
    ParseUnfold(s[p..], s[q..eq], s[eq + 1..ve], s[ve..], r, price);
  }

  lemma RoundSplits(s: seq<Byte>, q: nat, eq: nat, ve: nat)
    requires q <= eq < ve <= |s|
    requires eq - q == IndexOf(s[q..], EQUALS) && ve - eq - 1 == IndexOf(s[eq + 1..], PIPE)
    ensures Splits(s[q..], s[q..eq], s[eq + 1..ve], s[ve..])
  {
    var t, v := s[q..], s[eq + 1..];
    assert t[eq - q + 1..] == v && t[..eq - q] == s[q..eq];
    assert v[..ve - eq - 1] == s[eq + 1..ve] && v[ve - eq - 1..] == s[ve..];
  }

  method SkipAhead(s: seq<Byte>, start: nat) returns (p: nat)
    requires start <= |s|
    ensures start <= p <= |s| && SkipSeparators(s[start..]) == s[p..]
  {
    p := start;
    while p < |s| && (s[p] == PIPE || s[p] == SPACE)
      invariant start <= p <= |s| && SkipSeparators(s[start..]) == SkipSeparators(s[p..])
    {
      assert s[p..][1..] == s[p + 1..];
      p := p + 1;
    }
  }

  /** gw_parse_order_text with its cursor loop. */
  method ParseOrderText(payload: seq<Byte>, price: seq<Byte> -> int) returns (ret: int, req: Request)
    ensures ret == 0 ==> Parse(payload, price) == Accepted(req)
    ensures ret != 0 ==> ret == -1 && Parse(payload, price) == Rejected
  {
    req := Blank();
    var p, end := 0, |payload|;
    assert payload[0..] == payload;
    while p < end
      invariant 0 <= p <= end && |req.symbol| == 16
      invariant ParseRest(payload, Blank(), price) == ParseRest(payload[p..], req, price)
      decreases end - p
    {
      var q := SkipAhead(payload, p);
      if q >= end { break; }
      var eq := q + IndexOf(payload[q..], EQUALS);
      if eq == end { break; }
      var vs := eq + 1;
      var ve := vs + IndexOf(payload[vs..], PIPE);
      ParseRound(payload, p, q, eq, ve, req, price);
      req := ApplyField(req, payload[q..eq], payload[vs..ve], price);
      p := ve;
    }
    ret := if req.symbol[0] != 0 then 0 else -1;
  }

  // ---------------------------------------------------------------------
  // The printer
  // ---------------------------------------------------------------------

  datatype Field = Field(key: Byte, value: seq<Byte>)

  predicate Printable(f: Field) {
    f.key != PIPE && f.key != SPACE && f.key != EQUALS && PIPE !in f.value
  }

  function PrintField(f: Field): seq<Byte> {
    [f.key, EQUALS] + f.value
  }

  function PrintFields(fs: seq<Field>): seq<Byte> {
    if fs == [] then []
    else if |fs| == 1 then PrintField(fs[0])
    else PrintField(fs[0]) + [PIPE] + PrintFields(fs[1..])
  }

  function ApplyAll(r: Request, fs: seq<Field>, price: seq<Byte> -> int): (r': Request)
    requires |r.symbol| == 16
    ensures |r'.symbol| == 16
    decreases |fs|
  {
    if fs == [] then r else ApplyAll(ApplyField(r, [fs[0].key], fs[0].value, price), fs[1..], price)
  }

  lemma {:induction false} IndexOfAppend(a: seq<Byte>, c: Byte, b: seq<Byte>)
    requires c !in a
    ensures IndexOf(a + [c] + b, c) == |a| && IndexOf(a, c) == |a|
  {
    if a != [] {
      assert (a + [c] + b)[1..] == a[1..] + [c] + b;
      assert a[0] in a && forall x :: x in a[1..] ==> x in a;
      IndexOfAppend(a[1..], c, b);
    }
  }

  lemma KeyEnds(f: Field, w: seq<Byte>)
    requires Printable(f)
    ensures var s := [f.key, EQUALS] + w; SkipSeparators(s) == s && IndexOf(s, EQUALS) == 1
  {
    assert [f.key, EQUALS] + w == [f.key] + [EQUALS] + w;
    IndexOfAppend([f.key], EQUALS, w);
  }

  lemma ValueEnds(value: seq<Byte>, rest: seq<Byte>)
    requires PIPE !in value && (rest == [] || rest[0] == PIPE)
    ensures IndexOf(value + rest, PIPE) == |value|
  {
    if rest == [] {
      assert value + rest == value;
      IndexOfAppend(value, PIPE, []);
    } else {
      assert value + rest == value + [PIPE] + rest[1..];
      IndexOfAppend(value, PIPE, rest[1..]);
    }
  }

  /** The bytes after one printed field: nothing, or a separator and more. */
  lemma ParseField(f: Field, rest: seq<Byte>, r: Request, price: seq<Byte> -> int)
    requires |r.symbol| == 16 && Printable(f) && (rest == [] || rest[0] == PIPE)
    ensures ParseRest(PrintField(f) + rest, r, price) ==
            ParseRest(rest, ApplyField(r, [f.key], f.value, price), price)
  {
    var v := f.value + rest;
    var s := [f.key, EQUALS] + v;
    assert PrintField(f) + rest == s;
    KeyEnds(f, v);
    ValueEnds(f.value, rest);
    assert s[2..] == v && s[..1] == [f.key];
    assert v[|f.value|..] == rest && v[..|f.value|] == f.value;
    ParseUnfold(s, [f.key], f.value, rest, r, price);
  }

  lemma ParsePipe(s: seq<Byte>, r: Request, price: seq<Byte> -> int)
    requires |r.symbol| == 16
    ensures ParseRest([PIPE] + s, r, price) == ParseRest(s, r, price)
  {
    PipeSkipped(s);
  }

  lemma PipeSkipped(s: seq<Byte>)
    ensures SkipSeparators([PIPE] + s) == SkipSeparators(s)
  {
    assert ([PIPE] + s)[1..] == s;
  }

  /** Parsing printed fields applies them in order. */
  lemma {:induction false} ParsePrinted(fs: seq<Field>, r: Request, price: seq<Byte> -> int)
    requires |r.symbol| == 16 && forall i :: 0 <= i < |fs| ==> Printable(fs[i])
    ensures ParseRest(PrintFields(fs), r, price) == ApplyAll(r, fs, price)
    decreases |fs|
  {
    if |fs| == 1 {
      assert PrintField(fs[0]) + [] == PrintFields(fs);
      ParseField(fs[0], [], r, price);
    } else if fs != [] {
      var r' := ApplyField(r, [fs[0].key], fs[0].value, price);
      var rest := [PIPE] + PrintFields(fs[1..]);
      assert PrintFields(fs) == PrintField(fs[0]) + rest;
      ParseField(fs[0], rest, r, price);
      ParsePipe(PrintFields(fs[1..]), r', price);
      ParsePrinted(fs[1..], r', price);
    }
  }

  // ---------------------------------------------------------------------
  // Order of the fields
  // ---------------------------------------------------------------------

  function Lookup(fs: seq<Field>, key: Byte): Option<seq<Byte>> {
    if fs == [] then None
    else if fs[0].key == key then Some(fs[0].value) else Lookup(fs[1..], key)
  }

  predicate DistinctKeys(fs: seq<Field>) {
    forall i, j :: 0 <= i < j < |fs| ==> fs[i].key != fs[j].key
  }

  lemma {:induction false} LookupAbsent(fs: seq<Field>, key: Byte)
    requires forall i :: 0 <= i < |fs| ==> fs[i].key != key
    ensures Lookup(fs, key) == None
  {
    if fs != [] { LookupAbsent(fs[1..], key); }
  }

  lemma {:induction false} LookupIn(fs: seq<Field>, f: Field)
    requires DistinctKeys(fs) && f in fs
    ensures Lookup(fs, f.key) == Some(f.value)
  {
    var i :| 0 <= i < |fs| && fs[i] == f;
    if i > 0 {
      assert fs[0].key != fs[i].key && fs[1..][i - 1] == f;
      LookupIn(fs[1..], f);
    }
  }

  /** With distinct keys the result depends only on which value each key has. */
  function Assemble(r: Request, fs: seq<Field>, price: seq<Byte> -> int): Request
    requires |r.symbol| == 16
  {
    Request(
      r.id,
      match Lookup(fs, 117) { case None => r.user case Some(v) => ParseUnsigned(Buffer(v)) },
      match Lookup(fs, 115) { case None => r.symbol case Some(v) => SetSymbol(r.symbol, v) },
      match Lookup(fs, 112) { case None => r.price case Some(v) => price(Buffer(v)) },
      match Lookup(fs, 113) { case None => r.quantity case Some(v) => ParseUnsigned(Buffer(v)) % HALF },
      match Lookup(fs, 100) { case None => r.side case Some(v) => SideOf(First(v)) },
      match Lookup(fs, 116) { case None => r.kind case Some(v) => KindOf(First(v)) })
  }

  lemma {:induction false} ApplyIsAssemble(r: Request, fs: seq<Field>, price: seq<Byte> -> int)
    requires |r.symbol| == 16 && DistinctKeys(fs)
    ensures ApplyAll(r, fs, price) == Assemble(r, fs, price)
    decreases |fs|
  {
    if fs != [] {
      var r' := ApplyField(r, [fs[0].key], fs[0].value, price);
      ApplyIsAssemble(r', fs[1..], price);
      LookupAbsent(fs[1..], fs[0].key);
    }
  }

  /**
   A field that is not given is 0, and BUY and LIMIT for side and type; without a symbol the order is rejected.
   */
  lemma MissingFields(fs: seq<Field>, price: seq<Byte> -> int)
    requires DistinctKeys(fs) && forall i :: 0 <= i < |fs| ==> Printable(fs[i])
    ensures Lookup(fs, 115) == None ==> Parse(PrintFields(fs), price) == Rejected
    ensures var p := Parse(PrintFields(fs), price);
            p.Accepted? ==>
              && p.request.id == 0
              && (Lookup(fs, 117) == None ==> p.request.user == 0)
              && (Lookup(fs, 112) == None ==> p.request.price == 0)
              && (Lookup(fs, 113) == None ==> p.request.quantity == 0)
              && (Lookup(fs, 100) == None ==> p.request.side == Buy)
              && (Lookup(fs, 116) == None ==> p.request.kind == Limit)
  {
    ParsePrinted(fs, Blank(), price);
    ApplyIsAssemble(Blank(), fs, price);
  }

  /**
   A side is SELL exactly for values that begin with S or s; a type that is not M, I or F is LIMIT; keys that are
   not one of the six letters change nothing.
   */
  lemma OddValues(r: Request, key: seq<Byte>, value: seq<Byte>, price: seq<Byte> -> int)
    requires |r.symbol| == 16
    ensures |key| != 1 || key[0] !in {117, 115, 112, 113, 100, 116} ==> ApplyField(r, key, value, price) == r
    ensures ApplyField(r, [100], value, price).side == Sell <==> value != [] && (value[0] == 83 || value[0] == 115)
    ensures value == [] || value[0] !in {77, 73, 70} ==> ApplyField(r, [116], value, price).kind == Limit
  {
  }

  // ---------------------------------------------------------------------
  // Decimal numbers
  // ---------------------------------------------------------------------

  function Decimal(n: nat): (s: seq<Byte>)
    ensures |s| >= 1 && forall i :: 0 <= i < |s| ==> IsDigit(s[i])
  {
    if n < 10 then [48 + n] else Decimal(n / 10) + [48 + n % 10]
  }

  function Pow10(k: nat): nat {
    if k == 0 then 1 else 10 * Pow10(k - 1)
  }

  lemma {:induction false} DecimalLength(n: nat, k: nat)
    requires n < Pow10(k) && k >= 1
    ensures |Decimal(n)| <= k
    decreases k
  {
    if n >= 10 { DecimalLength(n / 10, k - 1); }
  }

  lemma {:induction false} DigitsValueAppend(a: seq<Byte>, b: seq<Byte>, acc: nat)
    requires forall i :: 0 <= i < |a| ==> IsDigit(a[i])
    ensures DigitsValue(a + b, acc) == DigitsValue(b, DigitsValue(a, acc))
    decreases |a|
  {
    if a == [] {
      assert a + b == b;
    } else {
      assert (a + b)[1..] == a[1..] + b;
      DigitsValueAppend(a[1..], b, acc * 10 + (a[0] as nat - 48));
    }
  }

  lemma {:induction false} DecimalValue(n: nat)
    ensures DigitsValue(Decimal(n), 0) == n
  {
    if n >= 10 {
      DecimalValue(n / 10);
      DigitsValueAppend(Decimal(n / 10), [48 + n % 10], 0);
      assert DigitsValue([48 + n % 10], n / 10) == n / 10 * 10 + n % 10;
    }
  }

  lemma NoNul(s: seq<Byte>)
    requires 0 !in s
    ensures CString(s) == s
  {
    assert IndexOf(s, 0) == |s|;
  }

  lemma Pow10Twenty()
    ensures Pow10(20) > WORD
  {
    assert Pow10(5) == 100_000;
    Pow10Add(5, 5);
    Pow10Add(10, 10);
  }

  lemma {:induction false} Pow10Add(a: nat, b: nat)
    ensures Pow10(a + b) == Pow10(a) * Pow10(b)
    decreases a
  {
    if a > 0 {
      Pow10Add(a - 1, b);
      MulAssoc(10, Pow10(a - 1), Pow10(b));
    }
  }

  /** Every 64-bit number printed with %lu reads back through the value buffer. */
  lemma NumberRoundTrip(n: nat)
    requires n < WORD
    ensures ParseUnsigned(Buffer(Decimal(n))) == n && PIPE !in Decimal(n)
  {
    Pow10Twenty();
    DecimalLength(n, 20);
    DecimalValue(n);
    var s := Decimal(n);
    assert IsDigit(s[0]);
    NoNul(s);
    assert SkipSpace(s) == s;
  }

  /** A number too large for 64 bits reads as the largest one; a quantity keeps its low 32 bits. */
  lemma NumberSaturates(n: nat)
    requires WORD <= n && |Decimal(n)| < 31
    ensures ParseUnsigned(Buffer(Decimal(n))) == WORD - 1
  {
    DecimalValue(n);
    var s := Decimal(n);
    assert IsDigit(s[0]);
    NoNul(s);
    assert SkipSpace(s) == s;
  }

  lemma QuantityTruncates(n: nat, r: Request, price: seq<Byte> -> int)
    requires n < WORD && |r.symbol| == 16
    ensures ApplyField(r, [113], Decimal(n), price).quantity == n % HALF
  {
    NumberRoundTrip(n);
  }

  /** Leading blanks are skipped and a minus sign negates modulo 2^64. */
  lemma SignedNumber(n: nat)
    requires 0 < n < WORD
    ensures ParseUnsigned(Buffer([SPACE, 45] + Decimal(n))) == WORD - n
    ensures ParseUnsigned(Buffer([SPACE, 43] + Decimal(n))) == n
  {
    SignedValue(n, 45);
    SignedValue(n, 43);
  }

  lemma SignedValue(n: nat, sign: Byte)
    requires 0 < n < WORD && (sign == 45 || sign == 43)
    ensures ParseUnsigned(Buffer([SPACE, sign] + Decimal(n))) == if sign == 45 then WORD - n else n
  {
    Pow10Twenty();
    DecimalLength(n, 20);
    DecimalValue(n);
    NoNul([SPACE, sign] + Decimal(n));
    SignSkipped(sign, Decimal(n));
    ModSmall(WORD - n, WORD);
  }

  lemma SignSkipped(sign: Byte, d: seq<Byte>)
    requires sign == 45 || sign == 43
    ensures SkipSpace([SPACE, sign] + d) == [sign] + d && ([sign] + d)[1..] == d
  {
    var s := [SPACE, sign] + d;
    assert s[1..] == [sign] + d;
    assert SkipSpace(s) == SkipSpace(s[1..]);
  }

  // ---------------------------------------------------------------------
  // Round trip
  // ---------------------------------------------------------------------

  datatype Order = Order(user: nat, symbol: seq<Byte>, quantity: nat, side: Side, kind: Kind)

  predicate ValidOrder(o: Order) {
    o.user < WORD && o.quantity < HALF && 1 <= |o.symbol| <= 15 && PIPE !in o.symbol && 0 !in o.symbol
  }

  function SideChar(s: Side): Byte {
    match s case Buy => 66 case Sell => 83
  }

  function KindChar(k: Kind): Byte {
    match k case Limit => 76 case Market => 77 case Ioc => 73 case Fok => 70
  }

  /** The fields the client prints; priceText stands for the output of %.6f. */
  function OrderFields(o: Order, priceText: seq<Byte>): seq<Field> {
    [Field(117, Decimal(o.user)), Field(115, o.symbol), Field(112, priceText),
     Field(113, Decimal(o.quantity)), Field(100, [SideChar(o.side)]), Field(116, [KindChar(o.kind)])]
  }

  lemma PermutedFields(fs: seq<Field>, gs: seq<Field>)
    requires multiset(fs) == multiset(gs) && DistinctKeys(gs)
    requires forall i :: 0 <= i < |gs| ==> Printable(gs[i])
    ensures DistinctKeys(fs) && forall i :: 0 <= i < |fs| ==> Printable(fs[i])
    ensures forall i :: 0 <= i < |gs| ==> Lookup(fs, gs[i].key) == Some(gs[i].value)
  {
    forall i | 0 <= i < |fs| ensures Printable(fs[i]) {
      assert fs[i] in multiset(gs);
      assert fs[i] in gs;
    }
    PermutedDistinct(fs, gs);
    forall i | 0 <= i < |gs| ensures Lookup(fs, gs[i].key) == Some(gs[i].value) {
      assert gs[i] in multiset(fs);
      LookupIn(fs, gs[i]);
    }
  }

  lemma PermutedDistinct(fs: seq<Field>, gs: seq<Field>)
    requires multiset(fs) == multiset(gs) && DistinctKeys(gs)
    ensures DistinctKeys(fs)
  {
    forall i, j | 0 <= i < j < |fs| ensures fs[i].key != fs[j].key {
      if fs[i] == fs[j] {
        TwiceInMultiset(fs, i, j);
        OnceInMultiset(gs, fs[i]);
      } else {
        assert fs[i] in multiset(gs) && fs[j] in multiset(gs);
        var a :| 0 <= a < |gs| && gs[a] == fs[i];
        var b :| 0 <= b < |gs| && gs[b] == fs[j];
      }
    }
  }

  lemma TwiceInMultiset(fs: seq<Field>, i: nat, j: nat)
    requires i < j < |fs| && fs[i] == fs[j]
    ensures multiset(fs)[fs[i]] >= 2
  {
    assert fs == fs[..j] + fs[j..];
    assert fs[i] in fs[..j] && fs[j] in fs[j..] by { assert fs[..j][i] == fs[i] && fs[j..][0] == fs[j]; }
    assert multiset(fs) == multiset(fs[..j]) + multiset(fs[j..]);
  }

  lemma {:induction false} OnceInMultiset(gs: seq<Field>, f: Field)
    requires DistinctKeys(gs)
    ensures multiset(gs)[f] <= 1
  {
    if gs != [] {
      OnceInMultiset(gs[1..], f);
      assert gs == [gs[0]] + gs[1..];
      if gs[0] == f {
        assert forall i :: 0 <= i < |gs[1..]| ==> gs[1..][i] == gs[i + 1];
        assert f !in gs[1..];
      }
    }
  }

  lemma SymbolRoundTrip(symbol: seq<Byte>)
    requires 1 <= |symbol| <= 15 && 0 !in symbol
    ensures var r := SetSymbol(Blank().symbol, symbol); CString(r) == symbol && r[0] != 0
  {
    var r := SetSymbol(Blank().symbol, symbol);
    assert r == symbol + [0] + Blank().symbol[|symbol| + 1..];
    IndexOfAppend(symbol, 0, Blank().symbol[|symbol| + 1..]);
  }

  /** Of a symbol of more than 15 bytes the first 15 are kept, with a NUL behind them. */
  lemma SymbolTruncates(symbol: seq<Byte>)
    requires |symbol| >= 15 && 0 !in symbol
    ensures CString(SetSymbol(Blank().symbol, symbol)) == symbol[..15]
  {
    var r := SetSymbol(Blank().symbol, symbol);
    assert r == symbol[..15] + [0] + [];
    IndexOfAppend(symbol[..15], 0, []);
  }

  lemma FieldsWellFormed(o: Order, priceText: seq<Byte>)
    requires ValidOrder(o) && PIPE !in priceText
    ensures var gs := OrderFields(o, priceText);
            DistinctKeys(gs) && forall i :: 0 <= i < |gs| ==> Printable(gs[i])
  {
    NumberRoundTrip(o.user);
    NumberRoundTrip(o.quantity);
  }

  /** What the six values assemble to. */
  lemma AssembleOrder(o: Order, priceText: seq<Byte>, fs: seq<Field>, price: seq<Byte> -> int)
    requires ValidOrder(o)
    requires Lookup(fs, 117) == Some(Decimal(o.user)) && Lookup(fs, 115) == Some(o.symbol)
    requires Lookup(fs, 112) == Some(priceText) && Lookup(fs, 113) == Some(Decimal(o.quantity))
    requires Lookup(fs, 100) == Some([SideChar(o.side)]) && Lookup(fs, 116) == Some([KindChar(o.kind)])
    ensures var r := Assemble(Blank(), fs, price);
            && r.user == o.user && r.symbol == SetSymbol(Blank().symbol, o.symbol)
            && r.quantity == o.quantity && r.side == o.side && r.kind == o.kind
            && r.price == price(Buffer(priceText)) && r.id == 0
  {
    NumberRoundTrip(o.user);
    NumberRoundTrip(o.quantity);
    ModSmall(o.quantity, HALF);
  }

  lemma PermutedLookups(o: Order, priceText: seq<Byte>, fs: seq<Field>)
    requires ValidOrder(o) && PIPE !in priceText
    requires multiset(fs) == multiset(OrderFields(o, priceText))
    ensures DistinctKeys(fs) && forall i :: 0 <= i < |fs| ==> Printable(fs[i])
    ensures Lookup(fs, 117) == Some(Decimal(o.user)) && Lookup(fs, 115) == Some(o.symbol)
    ensures Lookup(fs, 112) == Some(priceText) && Lookup(fs, 113) == Some(Decimal(o.quantity))
    ensures Lookup(fs, 100) == Some([SideChar(o.side)]) && Lookup(fs, 116) == Some([KindChar(o.kind)])
  {
    var gs := OrderFields(o, priceText);
    FieldsWellFormed(o, priceText);
    PermutedFields(fs, gs);
    assert Lookup(fs, gs[0].key) == Some(gs[0].value) && Lookup(fs, gs[1].key) == Some(gs[1].value);
    assert Lookup(fs, gs[2].key) == Some(gs[2].value) && Lookup(fs, gs[3].key) == Some(gs[3].value);
    assert Lookup(fs, gs[4].key) == Some(gs[4].value) && Lookup(fs, gs[5].key) == Some(gs[5].value);
  }

  /** Every valid order, printed with its fields in any order, is parsed back. */
  lemma OrderRoundTrip(o: Order, priceText: seq<Byte>, fs: seq<Field>, price: seq<Byte> -> int)
    requires ValidOrder(o) && PIPE !in priceText
    requires multiset(fs) == multiset(OrderFields(o, priceText))
    ensures var p := Parse(PrintFields(fs), price);
            && p.Accepted?
            && p.request.user == o.user && CString(p.request.symbol) == o.symbol
            && p.request.quantity == o.quantity && p.request.side == o.side && p.request.kind == o.kind
            && p.request.price == price(Buffer(priceText)) && p.request.id == 0
  {
    PermutedLookups(o, priceText, fs);
    ParsePrinted(fs, Blank(), price);
    ApplyIsAssemble(Blank(), fs, price);
    AssembleOrder(o, priceText, fs, price);
    SymbolRoundTrip(o.symbol);
  }
}
