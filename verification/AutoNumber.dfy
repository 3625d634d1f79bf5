/** Auto-number fields: a stored counter, a presentation, and what each promises the other. */
module AutoNumber {
  import opened Options

  // A JSON number as int() sees it: missing, convertible, or raising.
  datatype Number = Missing | Int(n: int) | NotInt

  // A prefix that is missing or null reads as empty.
  datatype Prefix = NoPrefix | Prefix(s: string) | NotText

  datatype Property = Property(prefix: Prefix, digits: Number, start: Number, next: Number)

  // A property normalize_auto_number_property has accepted
  datatype Config = Config(prefix: string, digits: int, start: int, next: int)

  const MAX_PREFIX := 64
  const MAX_DIGITS := 12
  const MAX_START := 999_999_999_999

  function Max(a: int, b: int): int { if a >= b then a else b }

  function OrDefault(x: Number, default: int): Option<int> {
    match x
    case Missing => Some(default)
    case Int(n) => Some(n)
    case NotInt => None
  }

  function Normalize(p: Property, preserveNext: Option<int>): Option<Config> {
    var prefix := if p.prefix.Prefix? then p.prefix.s else "";
    var digits, start := OrDefault(p.digits, 3), OrDefault(p.start, 1);
    if p.prefix.NotText? || |prefix| > MAX_PREFIX then None
    else if digits.None? || digits.value < 1 || digits.value > MAX_DIGITS then None
    else if start.None? || start.value < 1 || start.value > MAX_START then None
    else
      var next := if preserveNext.Some? then preserveNext.value
                  else if p.next.Int? then p.next.n else start.value;
      Some(Config(prefix, digits.value, start.value, Max(start.value, next)))
  }

  predicate Valid(c: Config) {
    |c.prefix| <= MAX_PREFIX && 1 <= c.digits <= MAX_DIGITS && 1 <= c.start <= MAX_START && c.start <= c.next
  }

  function AsProperty(c: Config): Property {
    Property(Prefix(c.prefix), Int(c.digits), Int(c.start), Int(c.next))
  }

  function Range(first: int, count: nat): (r: seq<int>)
    ensures |r| == count && forall i :: 0 <= i < count ==> r[i] == first + i
  {
    seq(count, i requires 0 <= i < count => first + i)
  }

  function Allocate(p: Property, count: int): Option<(seq<int>, Property)> {
    match Normalize(p, None)
    case None => None
    case Some(c) =>
      var amount := Max(0, count);
      Some((Range(c.next, amount), AsProperty(c.(next := c.next + amount))))
  }

  // Storing an accepted property and reading it back changes nothing; every accepted one is valid.
  lemma NormalizeIsStable(p: Property, preserveNext: Option<int>)
    ensures match Normalize(p, preserveNext)
            case None => true
            case Some(c) => Valid(c) && Normalize(AsProperty(c), None) == Some(c) &&
                            (preserveNext.Some? ==> c.next >= preserveNext.value)
  {
  }

  // Exactly which properties are accepted, and that what is given is kept: a missing prefix counts as empty, missing
  // digits as 3, a missing start as 1, and the next number is never below the start.
  lemma NormalizeKeepsWhatIsGiven(p: Property, preserveNext: Option<int>)
    ensures Normalize(p, preserveNext).Some? <==>
              && !p.prefix.NotText? && !p.digits.NotInt? && !p.start.NotInt?
              && (p.prefix.Prefix? ==> |p.prefix.s| <= 64)
              && (p.digits.Int? ==> 1 <= p.digits.n <= 12)
              && (p.start.Int? ==> 1 <= p.start.n <= 999_999_999_999)
    ensures match Normalize(p, preserveNext)
            case None => true
            case Some(c) =>
              && c.prefix == (if p.prefix.Prefix? then p.prefix.s else "")
              && c.digits == (if p.digits.Int? then p.digits.n else 3)
              && c.start == (if p.start.Int? then p.start.n else 1)
              && c.next >= c.start
              && (preserveNext.Some? ==> c.next == c.start || preserveNext == Some(c.next))
              && (preserveNext.Some? ==> c.next >= preserveNext.value)
              && (preserveNext.None? ==> c.next == c.start || p.next == Int(c.next))
              && (preserveNext.None? && p.next.Int? ==> c.next >= p.next.n)
  {
  }

  // ---------------------------------------------------------------- a whole history of allocations

  // All the values handed out for a list of requests, with the property left behind.
  function AllocateAll(p: Property, counts: seq<int>): Option<(seq<int>, Property)>
    decreases |counts|
  {
    if counts == [] then Some(([], p)) else
      match Allocate(p, counts[0])
      case None => None
      case Some((values, next)) =>
        match AllocateAll(next, counts[1..])
        case None => None
        case Some((more, last)) => Some((values + more, last))
  }

  function Total(counts: seq<int>): nat {
    if counts == [] then 0 else Max(0, counts[0]) + Total(counts[1..])
  }

  // However allocations are batched, a field hands out one unbroken run of numbers: no gap, no
  // repeat, and the stored counter is the first number not yet given.
  lemma {:induction false} AllocationsAreOneRun(p: Property, counts: seq<int>)
    requires counts != [] && Normalize(p, None).Some?
    ensures var c := Normalize(p, None).value;
            AllocateAll(p, counts) ==
              Some((Range(c.next, Total(counts)), AsProperty(c.(next := c.next + Total(counts)))))
    decreases |counts|
  {
    var c := Normalize(p, None).value;
    var amount := Max(0, counts[0]);
    NormalizeIsStable(p, None);
    var mid := c.(next := c.next + amount);
    assert Normalize(AsProperty(mid), None) == Some(mid);
    if |counts| > 1 {
      AllocationsAreOneRun(AsProperty(mid), counts[1..]);
      assert Range(c.next, amount) + Range(mid.next, Total(counts[1..])) == Range(c.next, Total(counts));
    } else {
      assert AllocateAll(AsProperty(mid), counts[1..]) == Some(([], AsProperty(mid)));
      assert Total(counts[1..]) == 0;
      assert Range(c.next, amount) + [] == Range(c.next, amount);
    }
  }

  // ---------------------------------------------------------------- presentation

  function DigitChar(d: nat): char
    requires d < 10
  {
    '0' + d as char
  }

  predicate IsDigit(c: char) { '0' <= c <= '9' }

  function Decimal(n: nat): (s: string)
    ensures |s| > 0
  {
    if n < 10 then [DigitChar(n)] else Decimal(n / 10) + [DigitChar(n % 10)]
  }

  function Zeros(k: int): string {
    if k <= 0 then "" else "0" + Zeros(k - 1)
  }

  // Python's :0{width}d: zeros go between the sign and the digits, the sign counts towards width.
  function Padded(n: int, width: int): string {
    if n < 0 then "-" + (Zeros(width - 1 - |Decimal(-n)|) + Decimal(-n))
    else Zeros(width - |Decimal(n)|) + Decimal(n)
  }

  function FormatWith(c: Config, n: int): string {
    c.prefix + Padded(n, c.digits)
  }

  // None when the property is refused; a missing value shows as nothing.
  function Format(p: Property, value: Number): Option<string>
    requires !value.NotInt?
  {
    if value.Missing? then Some("") else
      match Normalize(p, None)
      case None => None
      case Some(c) => Some(FormatWith(c, value.n))
  }

  function ParseDigits(s: string): Option<nat> {
    if s == "" then Some(0)
    else if !IsDigit(s[|s| - 1]) then None
    else match ParseDigits(s[..|s| - 1])
         case None => None
         case Some(high) => Some(10 * high + (s[|s| - 1] - '0') as nat)
  }

  function Parse(s: string): Option<int> {
    if s == "" then None
    else if s[0] == '-' then
      match ParseDigits(s[1..])
      case None => None
      case Some(n) => var m: int := n; Some(-m)
    else ParseDigits(s)
  }

  lemma {:induction false} ParseDecimal(n: nat)
    ensures ParseDigits(Decimal(n)) == Some(n) && Decimal(n)[0] != '-'
  {
    if n >= 10 {
      ParseDecimal(n / 10);
      var s := Decimal(n);
      assert s[..|s| - 1] == Decimal(n / 10);
    } else {
      assert Decimal(n)[..0] == "";
    }
  }

  lemma {:induction false} ZerosAreIgnored(k: int, s: string)
    requires ParseDigits(s).Some?
    ensures ParseDigits(Zeros(k) + s) == ParseDigits(s)
    decreases |s|, k
  {
    if s == "" {
      ZerosParse(k);
      assert Zeros(k) + s == Zeros(k);
    } else {
      var t := Zeros(k) + s;
      assert t[..|t| - 1] == Zeros(k) + s[..|s| - 1];
      ZerosAreIgnored(k, s[..|s| - 1]);
    }
  }

  lemma {:induction false} ZerosParse(k: int)
    ensures ParseDigits(Zeros(k)) == Some(0)
    ensures k > 0 ==> Zeros(k)[|Zeros(k)| - 1] == '0'
  {
    if k > 0 {
      ZerosParse(k - 1);
      ZerosSymmetric(k - 1);
      var z := Zeros(k);
      assert z[..|z| - 1] == Zeros(k - 1);
    }
  }

  lemma {:induction false} ZerosSymmetric(k: int)
    ensures "0" + Zeros(k) == Zeros(k) + "0"
  {
    if k > 0 {
      ZerosSymmetric(k - 1);
      assert "0" + Zeros(k) == "0" + (Zeros(k - 1) + "0") == ("0" + Zeros(k - 1)) + "0";
    }
  }

  lemma {:induction false} NoLeadingZero(n: nat)
    ensures n > 0 ==> Decimal(n)[0] != '0'
    ensures n < 10 ==> |Decimal(n)| == 1
  {
    if n >= 10 {
      NoLeadingZero(n / 10);
    }
  }

  lemma {:induction false} PaddedDigits(n: nat, width: int)
    ensures var s := Zeros(width) + Decimal(n); |s| > 0 && s[0] != '-' && ParseDigits(s) == Some(n)
  {
    ParseDecimal(n);
    ZerosAreIgnored(width, Decimal(n));
    var s := Zeros(width) + Decimal(n);
    assert s[0] == '0' || s == Decimal(n);
  }

  lemma {:induction false} ParseSigned(digits: string, n: nat)
    requires digits != "" && digits[0] != '-' && ParseDigits(digits) == Some(n)
    ensures var m: int := n; Parse(digits) == Some(m) && Parse("-" + digits) == Some(-m)
  {
    assert ("-" + digits)[1..] == digits;
  }

  lemma {:induction false} PaddedRoundTrip(n: int, width: int)
    ensures Parse(Padded(n, width)) == Some(n)
  {
    if n < 0 {
      var zeros := width - 1 - |Decimal(-n)|;
      PaddedDigits(-n, zeros);
      ParseSigned(Zeros(zeros) + Decimal(-n), -n);
    } else {
      var zeros := width - |Decimal(n)|;
      PaddedDigits(n, zeros);
      ParseSigned(Zeros(zeros) + Decimal(n), n);
    }
  }

  // Dropping the prefix and reading the rest recovers the stored number, whatever the padding.
  lemma {:induction false} FormatRoundTrip(c: Config, n: int)
    ensures var s := FormatWith(c, n);
            |s| >= |c.prefix| && s[..|c.prefix|] == c.prefix && Parse(s[|c.prefix|..]) == Some(n)
  {
    assert FormatWith(c, n)[|c.prefix|..] == Padded(n, c.digits);
    PaddedRoundTrip(n, c.digits);
  }

  lemma {:induction false} ZerosHaveLength(k: int)
    ensures |Zeros(k)| == (if k < 0 then 0 else k) && forall i :: 0 <= i < |Zeros(k)| ==> Zeros(k)[i] == '0'
  {
    if k > 0 {
      ZerosHaveLength(k - 1);
    }
  }

  // A number is shown at its field's width, sign included; one that needs more room is shown without leading zeros.
  lemma {:induction false} FormatWidth(c: Config, n: int)
    requires Valid(c)
    ensures var shown := FormatWith(c, n)[|c.prefix|..];
            && |shown| >= c.digits && (n < 0 <==> shown[0] == '-')
            && (|shown| > c.digits ==> |shown| > (if n < 0 then 1 else 0) && shown[if n < 0 then 1 else 0] != '0')
  {
    var magnitude := if n < 0 then -n else n;
    var width := if n < 0 then c.digits - 1 else c.digits;
    ParseDecimal(magnitude);
    NoLeadingZero(magnitude);
    ZerosHaveLength(width - |Decimal(magnitude)|);
    assert FormatWith(c, n)[|c.prefix|..] == Padded(n, c.digits);
  }

  // A missing value shows as nothing; a number shows unless the field's property is refused.
  lemma FormatOfAField(p: Property, n: int)
    ensures Format(p, Missing) == Some("")
    ensures Format(p, Int(n)).Some? <==> Normalize(p, None).Some?
    ensures Normalize(p, None).Some? ==>
              var c := Normalize(p, None).value;
              Format(p, Int(n)).value[..|c.prefix|] == c.prefix && Parse(Format(p, Int(n)).value[|c.prefix|..]) == Some(n)
  {
    if Normalize(p, None).Some? {
      FormatRoundTrip(Normalize(p, None).value, n);
    }
  }

  // Two records of one field never show the same text for different numbers.
  lemma FormatIsInjective(c: Config, a: int, b: int)
    requires FormatWith(c, a) == FormatWith(c, b)
    ensures a == b
  {
    FormatRoundTrip(c, a);
    FormatRoundTrip(c, b);
  }
}
