/** Exact decimal text to scaled int64: what a text denotes, and the digit-by-digit parser that never
    overflows on the way. */
module FixedPoint {
  import opened Words
  import opened Wrappers
  import opened JsonReader

  const MAX_SCALE := 18
  const MAX_I64: int := 0x7FFF_FFFF_FFFF_FFFF
  const MIN_I64: int := -0x8000_0000_0000_0000

  function Pow10(k: nat): (p: nat)
    ensures p >= 1
  {
    if k == 0 then 1 else 10 * Pow10(k - 1)
  }

  // ---------------------------------------------------------------------------------------------
  // What a decimal text denotes

  predicate IsSigned(text: string) {
    text != "" && (text[0] == '+' || text[0] == '-')
  }

  predicate IsNegative(text: string) {
    text != "" && text[0] == '-'
  }

  function Body(text: string): string {
    if IsSigned(text) then text[1..] else text
  }

  function Digits(s: string): nat {
    if s == "" then 0 else Digits(s[..|s| - 1]) + if IsDigit(s[|s| - 1]) then 1 else 0
  }

  function Points(s: string): nat {
    if s == "" then 0 else Points(s[..|s| - 1]) + if s[|s| - 1] == '.' then 1 else 0
  }

  /** Digits and points only, at most one point. */
  predicate Plain(s: string) {
    (forall i :: 0 <= i < |s| ==> IsDigit(s[i]) || s[i] == '.') && Points(s) <= 1
  }

  /** An optional sign, then digits with at most one point and at least one digit. */
  predicate IsDecimal(text: string) {
    Plain(Body(text)) && Digits(Body(text)) >= 1
  }

  /** The digits read as one number, ignoring any point. */
  function Mantissa(s: string): nat {
    if s == "" then 0 else
      var m, c := Mantissa(s[..|s| - 1]), s[|s| - 1];
      if IsDigit(c) then 10 * m + DigitOf(c) else m
  }

  /** How many digits follow the point. */
  function Decimals(s: string): nat {
    if s == "" then 0 else
      var n := Decimals(s[..|s| - 1]);
      if IsDigit(s[|s| - 1]) && Points(s) >= 1 then n + 1 else n
  }

  /** The text's exact value, times 10^scale, is the integer n: n / 10^scale == +-mantissa / 10^decimals. */
  predicate Denotes(text: string, scale: nat, n: int) {
    var m: int := Mantissa(Body(text)) * Pow10(scale);
    n * Pow10(Decimals(Body(text))) == if IsNegative(text) then -m else m
  }

  /** What parsing must answer. */
  ghost predicate ParsesTo(text: string, scale: int, n: int) {
    0 <= scale <= MAX_SCALE && IsDecimal(text) && MIN_I64 <= n <= MAX_I64 && Denotes(text, scale, n)
  }

  ghost predicate Unparsable(text: string, scale: int) {
    forall n :: !ParsesTo(text, scale, n)
  }

  lemma DenotesUnique(text: string, scale: nat, n: int, k: int)
    requires Denotes(text, scale, n) && Denotes(text, scale, k)
    ensures n == k
  {
    var p := Pow10(Decimals(Body(text)));
    assert (n - k) * p == 0;
    MulZero(n - k, p);
  }

  lemma MulZero(d: int, p: nat)
    requires p >= 1 && d * p == 0
    ensures d == 0
  {
    assert d >= 1 ==> d * p >= p;
    assert d <= -1 ==> d * p <= -(p as int);
  }

  lemma {:induction false} Pow10Adds(i: nat, j: nat)
    ensures Pow10(i + j) == Pow10(i) * Pow10(j)
  {
    if i != 0 {
      Pow10Adds(i - 1, j);
      assert Pow10(i + j) == 10 * Pow10(i - 1 + j);
    }
  }

  // ---------------------------------------------------------------------------------------------
  // Magnitudes: the sign apart

  predicate Equation(body: string, scale: nat, magnitude: nat) {
    magnitude * Pow10(Decimals(body)) == Mantissa(body) * Pow10(scale)
  }

  function Limit(text: string): u64 {
    if IsNegative(text) then 0x8000_0000_0000_0000 else 0x7FFF_FFFF_FFFF_FFFF
  }

  function Signed(text: string, magnitude: nat): int {
    if IsNegative(text) then -(magnitude as int) else magnitude
  }

  lemma MagnitudeOf(text: string, scale: int, n: int) returns (magnitude: nat)
    requires ParsesTo(text, scale, n)
    ensures n == Signed(text, magnitude) && magnitude <= Limit(text) && Equation(Body(text), scale, magnitude)
  {
    var p := Pow10(Decimals(Body(text)));
    var m: nat := Mantissa(Body(text)) * Pow10(scale);
    var k := if IsNegative(text) then -n else n;
    hide Mantissa, Decimals, Pow10, Body;
    NegatedProduct(n, p);
    NotNegative(k, p);
    magnitude := k;
  }

  lemma NegatedProduct(n: int, p: int)
    ensures (-n) * p == -(n * p)
  {
  }

  lemma NotNegative(k: int, p: nat)
    requires p >= 1 && k * p >= 0
    ensures k >= 0
  {
  }

  lemma MagnitudeParses(text: string, scale: int, magnitude: nat)
    requires 0 <= scale <= MAX_SCALE && IsDecimal(text) && magnitude <= Limit(text)
             && Equation(Body(text), scale, magnitude)
    ensures ParsesTo(text, scale, Signed(text, magnitude))
  {
    var p := Pow10(Decimals(Body(text)));
    hide Mantissa, Decimals, Pow10, Body;
    NegatedProduct(magnitude, p);
  }

  /** No magnitude within the limit solves the equation, so nothing parses. */
  lemma NothingParses(text: string, scale: int)
    requires scale >= 0 && forall magnitude: nat :: magnitude <= Limit(text) ==> !Equation(Body(text), scale, magnitude)
    ensures Unparsable(text, scale)
  {
    forall n ensures !ParsesTo(text, scale, n) {
      if ParsesTo(text, scale, n) {
        var magnitude := MagnitudeOf(text, scale, n);
        assert false;
      }
    }
  }

  // ---------------------------------------------------------------------------------------------
  // Prefixes of the body

  /** Reading `c` after `p`. */
  lemma Extend(p: string, c: char)
    ensures Mantissa(p + [c]) == if IsDigit(c) then 10 * Mantissa(p) + DigitOf(c) else Mantissa(p)
    ensures Points(p + [c]) == Points(p) + if c == '.' then 1 else 0
    ensures Digits(p + [c]) == Digits(p) + if IsDigit(c) then 1 else 0
    ensures Decimals(p + [c]) == Decimals(p) + if IsDigit(c) && Points(p) >= 1 then 1 else 0
    ensures Plain(p + [c]) <==> Plain(p) && (IsDigit(c) || c == '.') && Points(p + [c]) <= 1
  {
    assert (p + [c])[..|p|] == p;
  }

  lemma {:induction false} NoPointNoDecimals(s: string)
    requires Points(s) == 0
    ensures Decimals(s) == 0
  {
    if s != "" {
      NoPointNoDecimals(s[..|s| - 1]);
    }
  }

  /** The rest of a plain body appends `j` digits: dividing the mantissa by 10^j gives the prefix back. */
  lemma {:induction false} PrefixOf(s: string, i: nat) returns (j: nat)
    requires Plain(s) && i <= |s|
    ensures Mantissa(s[..i]) * Pow10(j) <= Mantissa(s) < (Mantissa(s[..i]) + 1) * Pow10(j)
    ensures Decimals(s) <= Decimals(s[..i]) + j
    ensures Points(s[..i]) >= 1 ==> Decimals(s) == Decimals(s[..i]) + j && Points(s) >= 1
    decreases |s|
  {
    if i == |s| {
      j := 0;
      assert s[..i] == s;
    } else {
      var p, c := s[..|s| - 1], s[|s| - 1];
      assert s == p + [c] && p[..i] == s[..i];
      Extend(p, c);
      j := PrefixOf(p, i);
      if IsDigit(c) {
        AppendToBounds(Mantissa(s[..i]), Pow10(j), Mantissa(p), DigitOf(c));
        j := j + 1;
      }
    }
  }

  lemma {:induction false} PrefixIsPlain(s: string, i: nat)
    requires Plain(s) && i <= |s|
    ensures Plain(s[..i])
    decreases |s|
  {
    if i == |s| {
      assert s[..i] == s;
    } else {
      var p := s[..|s| - 1];
      assert s == p + [s[|s| - 1]] && p[..i] == s[..i];
      Extend(p, s[|s| - 1]);
      PrefixIsPlain(p, i);
    }
  }

  lemma AppendToBounds(m: nat, p: nat, whole: nat, digit: nat)
    requires m * p <= whole < (m + 1) * p && digit <= 9
    ensures m * (10 * p) <= 10 * whole + digit < (m + 1) * (10 * p)
  {
    assert m * (10 * p) == 10 * (m * p) && (m + 1) * (10 * p) == 10 * ((m + 1) * p);
  }

  lemma MulMonotone(a: nat, b: nat, x: nat)
    requires a <= b
    ensures a * x <= b * x && x * a <= x * b
  {
    assert (b - a) * x >= 0;
  }

  lemma MulLess(a: nat, b: nat, x: nat)
    requires a < b && x >= 1
    ensures a * x < b * x
  {
    assert b * x == a * x + (b - a) * x;
    MulMonotone(1, b - a, x);
  }

  lemma MulAssociates(a: int, b: int, c: int)
    ensures (a * b) * c == a * (b * c)
  {
  }

  lemma Pow10Monotone(i: nat, j: nat)
    requires i <= j
    ensures Pow10(i) <= Pow10(j)
  {
    Pow10Adds(i, j - i);
    MulMonotone(1, Pow10(j - i), Pow10(i));
  }

  /** If the digits kept so far already exceed the limit, no completion of the text comes back below it. */
  lemma TooLarge(body: string, scale: nat, i: nat, limit: nat, magnitude: nat)
    requires Plain(body) && i <= |body| && Decimals(body[..i]) <= scale && Mantissa(body[..i]) > limit >= magnitude
    ensures !Equation(body, scale, magnitude)
  {
    hide Mantissa, Decimals, Pow10, Points, Plain;
    var j := PrefixOf(body, i);
    var m := Mantissa(body[..i]);
    var x := Pow10(j) * Pow10(scale);
    Pow10Adds(j, scale);
    Pow10Monotone(Decimals(body), j + scale);
    MulMonotone(Pow10(Decimals(body)), x, magnitude);
    MulLess(magnitude, m, x);
    MulAssociates(m, Pow10(j), Pow10(scale));
    MulMonotone(m * Pow10(j), Mantissa(body), Pow10(scale));
  }

  /** A nonzero digit beyond the scale cannot be represented. */
  lemma TooPrecise(body: string, scale: nat, i: nat, magnitude: nat)
    requires Plain(body) && i <= |body| && Decimals(body[..i]) > scale && Points(body[..i]) >= 1
    requires Mantissa(body[..i]) % 10 != 0
    ensures !Equation(body, scale, magnitude)
  {
    if Equation(body, scale, magnitude) {
      hide Mantissa, Decimals, Points, Plain;
      var j := PrefixOf(body, i);
      var e := Decimals(body[..i]) - scale;
      var q := Pow10(e - 1);
      assert Pow10(e) == 10 * q;
      hide Pow10;
      Pow10Adds(e + j, scale);
      Pow10Adds(e, j);
      MulAssociates(magnitude, Pow10(e + j), Pow10(scale));
      Cancel(Mantissa(body), magnitude * Pow10(e + j), Pow10(scale));
      MulAssociates(magnitude, Pow10(e), Pow10(j));
      FloorIs(Mantissa(body[..i]), magnitude * Pow10(e), Pow10(j));
      TenDivides(magnitude, q);
      assert false;
    }
  }

  lemma TenDivides(n: nat, q: nat)
    ensures (n * (10 * q)) % 10 == 0
  {
    assert n * (10 * q) == 10 * (n * q);
  }

  lemma Cancel(a: int, b: int, p: nat)
    requires p >= 1 && a * p == b * p
    ensures a == b
  {
    assert (a - b) * p == 0;
    MulZero(a - b, p);
  }

  lemma FloorIs(m: nat, n: nat, p: nat)
    requires p >= 1 && m * p <= n * p < (m + 1) * p
    ensures m == n
  {
    if m < n {
      MulMonotone(m + 1, n, p);
      assert false;
    } else if n < m {
      MulLess(n, m, p);
      assert false;
    }
  }

  // ---------------------------------------------------------------------------------------------
  // The parser

  /** After the prefix `s`, `value` holds the digits kept and `kept` says how many of them are decimals;
      the digits dropped beyond the scale were zeros. */
  ghost predicate Holds(s: string, scale: nat, value: nat, kept: nat) {
    && Plain(s) && kept == (if Decimals(s) < scale then Decimals(s) else scale)
    && Mantissa(s) == value * Pow10(Decimals(s) - kept)
  }

  lemma KeepDigit(p: string, c: char, scale: nat, value: nat, kept: nat)
    requires Holds(p, scale, value, kept) && IsDigit(c) && (Points(p) >= 1 ==> kept < scale)
    ensures Mantissa(p + [c]) == 10 * value + DigitOf(c) && Decimals(p + [c]) <= scale
    ensures Holds(p + [c], scale, 10 * value + DigitOf(c), if Points(p) >= 1 then kept + 1 else kept)
  {
    Extend(p, c);
    if Points(p) == 0 {
      NoPointNoDecimals(p);
    }
  }

  lemma DropZero(p: string, c: char, scale: nat, value: nat, kept: nat)
    requires Holds(p, scale, value, kept) && c == '0' && Points(p) >= 1 && kept == scale
    ensures Holds(p + [c], scale, value, kept)
  {
    Extend(p, c);
    var e := Decimals(p) - kept;
    assert Pow10(e + 1) == 10 * Pow10(e);
    TimesTen(value, Pow10(e));
    assert Mantissa(p + [c]) == value * Pow10(e + 1);
    hide Mantissa, Decimals, Points, Pow10;
  }

  lemma TimesTen(a: int, b: int)
    ensures a * (10 * b) == 10 * (a * b)
  {
  }

  /** While zeros are appended up to the scale. */
  ghost predicate Pads(body: string, scale: nat, value: nat, kept: nat) {
    kept <= scale && if Decimals(body) <= scale
                     then Decimals(body) <= kept && value == Mantissa(body) * Pow10(kept - Decimals(body))
                     else kept == scale && Mantissa(body) == value * Pow10(Decimals(body) - scale)
  }

  lemma PadOne(body: string, scale: nat, value: nat, kept: nat)
    requires Pads(body, scale, value, kept) && kept < scale
    ensures Pads(body, scale, 10 * value, kept + 1)
  {
    hide Mantissa, Decimals;
    if Decimals(body) <= kept {
      var e := kept - Decimals(body);
      assert Pow10(e + 1) == 10 * Pow10(e);
      TimesTen(Mantissa(body), Pow10(e));
    }
    hide Pow10;
  }

  lemma PadsToSolution(body: string, scale: nat, value: nat)
    requires Pads(body, scale, value, scale)
    ensures Equation(body, scale, value)
  {
    var d, m := Decimals(body), Mantissa(body);
    hide Mantissa, Decimals, Pow10;
    if d <= scale {
      Pow10Adds(scale - d, d);
      MulAssociates(m, Pow10(scale - d), Pow10(d));
    } else {
      Pow10Adds(d - scale, scale);
      MulAssociates(value, Pow10(d - scale), Pow10(scale));
    }
  }

  lemma PadTooLarge(body: string, scale: nat, value: nat, kept: nat, limit: nat, magnitude: nat)
    requires Pads(body, scale, value, kept) && kept < scale && 10 * value > limit >= magnitude
    ensures !Equation(body, scale, magnitude)
  {
    if Equation(body, scale, magnitude) {
      hide Mantissa, Decimals, Pow10;
      var d, m := Decimals(body), Mantissa(body);
      PadOne(body, scale, value, kept);
      Pow10Adds(scale - d, d);
      MulAssociates(m, Pow10(scale - d), Pow10(d));
      Cancel(magnitude, m * Pow10(scale - d), Pow10(d));
      Pow10Monotone(kept + 1 - d, scale - d);
      MulMonotone(Pow10(kept + 1 - d), Pow10(scale - d), m);
      assert false;
    }
  }

  /** The lambda of the parser: append unless the result would pass the limit. Every intermediate value is
      a 64-bit word. */
  method AppendDigit(value: u64, limit: u64, digit: nat) returns (ok: bool, next: u64)
    requires digit <= 9 <= limit && value <= limit
    ensures ok <==> 10 * value + digit <= limit
    ensures next == if ok then 10 * value + digit else value
  {
    if value > (limit - digit) / 10 {
      return false, value;
    }
    return true, value * 10 + digit;
  }

  lemma RejectsTooLarge(text: string, scale: int, i: nat)
    requires scale >= 0 && i <= |Body(text)| && Decimals(Body(text)[..i]) <= scale
    requires Mantissa(Body(text)[..i]) > Limit(text)
    ensures Unparsable(text, scale)
  {
    if Plain(Body(text)) {
      forall magnitude: nat | magnitude <= Limit(text) ensures !Equation(Body(text), scale, magnitude) {
        TooLarge(Body(text), scale, i, Limit(text), magnitude);
      }
      NothingParses(text, scale);
    }
  }

  lemma RejectsTooPrecise(text: string, scale: int, i: nat)
    requires scale >= 0 && i <= |Body(text)| && Decimals(Body(text)[..i]) > scale && Points(Body(text)[..i]) >= 1
    requires Mantissa(Body(text)[..i]) % 10 != 0
    ensures Unparsable(text, scale)
  {
    if Plain(Body(text)) {
      forall magnitude: nat | magnitude <= Limit(text) ensures !Equation(Body(text), scale, magnitude) {
        TooPrecise(Body(text), scale, i, magnitude);
      }
      NothingParses(text, scale);
    }
  }

  lemma RejectsBadChar(text: string, scale: int, i: nat)
    requires i <= |Body(text)| && !Plain(Body(text)[..i])
    ensures Unparsable(text, scale)
  {
    if Plain(Body(text)) {
      PrefixIsPlain(Body(text), i);
      assert false;
    }
  }

  /** The state of the parser after the prefix `p`. */
  ghost predicate Scanned(p: string, scale: nat, value: nat, kept: nat, seenDigit: bool, seenPoint: bool) {
    && Holds(p, scale, value, kept) && kept <= scale
    && (seenDigit <==> Digits(p) >= 1) && (seenPoint <==> Points(p) >= 1)
  }

  lemma ScannedNothing(scale: nat)
    ensures Scanned("", scale, 0, 0, false, false)
  {
    HoldsNothing(scale);
  }

  lemma ScanDigit(p: string, c: char, scale: nat, value: nat, kept: nat, seenDigit: bool, seenPoint: bool)
    requires Scanned(p, scale, value, kept, seenDigit, seenPoint) && IsDigit(c) && (seenPoint ==> kept < scale)
    ensures Mantissa(p + [c]) == 10 * value + DigitOf(c) && Decimals(p + [c]) <= scale
    ensures Scanned(p + [c], scale, 10 * value + DigitOf(c), if seenPoint then kept + 1 else kept, true, seenPoint)
  {
    hide Mantissa, Decimals, Points, Digits, Holds;
    KeepDigit(p, c, scale, value, kept);
    Extend(p, c);
  }

  lemma ScanDroppedZero(p: string, scale: nat, value: nat, kept: nat, seenDigit: bool)
    requires Scanned(p, scale, value, kept, seenDigit, true) && kept >= scale
    ensures Scanned(p + ['0'], scale, value, kept, true, true)
  {
    hide Mantissa, Decimals, Points, Digits, Holds;
    DropZero(p, '0', scale, value, kept);
    Extend(p, '0');
  }

  lemma ScanPoint(p: string, scale: nat, value: nat, kept: nat, seenDigit: bool)
    requires Scanned(p, scale, value, kept, seenDigit, false)
    ensures Scanned(p + ['.'], scale, value, kept, seenDigit, true)
  {
    hide Mantissa, Decimals, Points, Digits, Holds;
    KeepPoint(p, scale, value, kept);
    Extend(p, '.');
  }

  lemma ScanExcess(p: string, c: char, scale: nat, value: nat, kept: nat, seenDigit: bool)
    requires Scanned(p, scale, value, kept, seenDigit, true) && kept >= scale && IsDigit(c) && DigitOf(c) != 0
    ensures Decimals(p + [c]) > scale && Points(p + [c]) >= 1 && Mantissa(p + [c]) % 10 != 0
  {
    DigitBeyondScale(p, c, scale, value, kept);
  }

  lemma ScanBadChar(p: string, c: char, scale: nat, value: nat, kept: nat, seenDigit: bool, seenPoint: bool)
    requires Scanned(p, scale, value, kept, seenDigit, seenPoint) && !IsDigit(c) && (c != '.' || seenPoint)
    ensures !Plain(p + [c])
  {
    hide Mantissa, Decimals, Points, Digits, Holds;
    Extend(p, c);
  }

  /** What no completion of the prefix `q` repairs: too large already, or too precise for the scale. */
  ghost predicate Hopeless(q: string, scale: nat, limit: u64) {
    || (Decimals(q) <= scale && Mantissa(q) > limit)
    || (Decimals(q) > scale && Points(q) >= 1 && Mantissa(q) % 10 != 0)
  }

  lemma RejectsHopeless(text: string, scale: int, i: nat)
    requires scale >= 0 && i <= |Body(text)| && Hopeless(Body(text)[..i], scale, Limit(text))
    ensures Unparsable(text, scale)
  {
    hide Mantissa, Decimals, Points, Body, Limit, Unparsable;
    if Decimals(Body(text)[..i]) <= scale {
      RejectsTooLarge(text, scale, i);
    } else {
      RejectsTooPrecise(text, scale, i);
    }
  }

  /** One digit of the loop: kept, dropped as a zero beyond the scale, or refused. */
  method TakeDigit(scale: nat, limit: u64, seenPoint: bool, c: char, before: u64, keptBefore: nat,
                   ghost p: string, ghost seenDigit: bool)
    returns (ok: bool, value: u64, kept: nat)
    requires Scanned(p, scale, before, keptBefore, seenDigit, seenPoint) && IsDigit(c) && before <= limit && 9 <= limit
    ensures ok ==> value <= limit && Scanned(p + [c], scale, value, kept, true, seenPoint)
    ensures !ok ==> Hopeless(p + [c], scale, limit)
  {
    hide Mantissa, Decimals, Points;
    assert keptBefore <= scale;
    hide Scanned;
    var digit := DigitOf(c);
    kept := keptBefore;
    if seenPoint {
      if kept < scale {
        ScanDigit(p, c, scale, before, kept, seenDigit, true);
        ok, value := AppendDigit(before, limit, digit);
        kept := kept + 1;
      } else if digit != 0 {
        ScanExcess(p, c, scale, before, kept, seenDigit);
        ok, value := false, before;
      } else {
        ScanDroppedZero(p, scale, before, kept, seenDigit);
        ok, value := true, before;
      }
    } else {
      ScanDigit(p, c, scale, before, kept, seenDigit, false);
      ok, value := AppendDigit(before, limit, digit);
    }
  }

  /** The loop over the digits and the point after the sign. */
  method ScanBody(text: string, start: nat, scale: nat, limit: u64)
    returns (ok: bool, value: u64, fractionalDigits: nat)
    requires start <= |text| && Body(text) == text[start..] && scale <= MAX_SCALE && limit == Limit(text)
    ensures ok ==> Holds(Body(text), scale, value, fractionalDigits) && Digits(Body(text)) >= 1 && value <= limit
    ensures !ok ==> Unparsable(text, scale)
  {
    ghost var body := text[start..];
    var pos := start;
    value, fractionalDigits := 0, 0;
    var seenDigit, seenDecimalPoint := false, false;
    assert body[..0] == "";
    assert limit >= 9;
    ScannedNothing(scale);
    hide ParsesTo, Body, Mantissa, Decimals, Pow10, Points, Digits, Plain, Holds, Limit, Unparsable, Scanned, Hopeless,
         DigitOf;
    while pos < |text|
      invariant start <= pos <= |text| && value <= limit
      invariant Scanned(body[..pos - start], scale, value, fractionalDigits, seenDigit, seenDecimalPoint)
    {
      var ch := text[pos];
      ghost var p := body[..pos - start];
      assert body[..|p| + 1] == p + [ch];
      if ch >= '0' && ch <= '9' {
        ok, value, fractionalDigits :=
          TakeDigit(scale, limit, seenDecimalPoint, ch, value, fractionalDigits, p, seenDigit);
        if !ok {
          RejectsHopeless(text, scale, |p| + 1);
          return;
        }
        seenDigit := true;
      } else if ch == '.' && !seenDecimalPoint {
        ScanPoint(p, scale, value, fractionalDigits, seenDigit);
        seenDecimalPoint := true;
      } else {
        ScanBadChar(p, ch, scale, value, fractionalDigits, seenDigit, seenDecimalPoint);
        RejectsBadChar(text, scale, |p| + 1);
        return false, value, fractionalDigits;
      }
      pos := pos + 1;
    }
    assert body[..pos - start] == body;
    ScannedAll(body, scale, value, fractionalDigits, seenDigit, seenDecimalPoint);
    if !seenDigit {
      NoDigitsRejected(text, scale);
    }
    ok := seenDigit;
  }

  lemma ScannedAll(p: string, scale: nat, value: nat, kept: nat, seenDigit: bool, seenPoint: bool)
    requires Scanned(p, scale, value, kept, seenDigit, seenPoint)
    ensures Holds(p, scale, value, kept) && (seenDigit <==> Digits(p) >= 1)
  {
  }

  /** The loop that appends zeros up to the scale. */
  method PadZeros(text: string, scale: nat, limit: u64, before: u64, kept: nat) returns (ok: bool, value: u64)
    requires scale <= MAX_SCALE && limit == Limit(text) && before <= limit
    requires Holds(Body(text), scale, before, kept) && Digits(Body(text)) >= 1
    ensures ok ==> value <= limit && ParsesTo(text, scale, Signed(text, value))
    ensures !ok ==> Unparsable(text, scale)
  {
    ghost var body := Body(text);
    HoldsPads(body, scale, before, kept);
    assert IsDecimal(text);
    hide Mantissa, Decimals, Pow10, Points, Digits, Plain, Holds, ParsesTo, Body, Pads, Limit;
    value := before;
    var fractionalDigits := kept;
    while fractionalDigits < scale
      invariant Pads(body, scale, value, fractionalDigits) && fractionalDigits <= scale && value <= limit
    {
      PadOne(body, scale, value, fractionalDigits);
      ghost var padded := value;
      ok, value := AppendDigit(value, limit, 0);
      if !ok {
        RejectsPadding(text, scale, padded, fractionalDigits);
        return;
      }
      fractionalDigits := fractionalDigits + 1;
    }
    PadsToSolution(body, scale, value);
    MagnitudeParses(text, scale, value);
    ok := true;
  }

  /** Digit by digit, with one guard against overflow: succeeds exactly when some integer in range is the
      text's exact value at this scale, and returns it; otherwise the output is left alone. */
  method ParseDecimalToFixed(text: string, scale: int, before: i64) returns (ok: bool, out: i64)
    ensures ok <==> exists n :: ParsesTo(text, scale, n)
    ensures ok ==> ParsesTo(text, scale, out)
    ensures !ok ==> out == before
  {
    out := before;
    if text == "" || scale < 0 || scale > MAX_SCALE {
      return false, out;
    }
    var pos := 0;
    var negative := false;
    if text[pos] == '+' || text[pos] == '-' {
      negative := text[pos] == '-';
      pos := pos + 1;
      if pos == |text| {
        assert Body(text) == "";
        return false, out;
      }
    }
    var limit: u64 := if negative then 0x8000_0000_0000_0000 else 0x7FFF_FFFF_FFFF_FFFF;
    assert Body(text) == text[pos..] && limit == Limit(text);
    hide ParsesTo, Body;
    var value, fractionalDigits;
    ok, value, fractionalDigits := ScanBody(text, pos, scale, limit);
    if !ok {
      return;
    }
    ok, value := PadZeros(text, scale, limit, value, fractionalDigits);
    if !ok {
      return;
    }
    if negative {
      if value == limit {
        out := -0x8000_0000_0000_0000;
      } else {
        out := -(value as int);
      }
    } else {
      out := value;
    }
    assert ParsesTo(text, scale, out);
  }

  lemma HoldsNothing(scale: nat)
    ensures Holds("", scale, 0, 0) && Digits("") == 0 && Points("") == 0
  {
  }

  lemma KeepPoint(p: string, scale: nat, value: nat, kept: nat)
    requires Holds(p, scale, value, kept) && Points(p) == 0
    ensures Holds(p + ['.'], scale, value, kept)
  {
    Extend(p, '.');
  }

  lemma DigitBeyondScale(p: string, c: char, scale: nat, value: nat, kept: nat)
    requires Holds(p, scale, value, kept) && IsDigit(c) && DigitOf(c) != 0 && Points(p) >= 1 && kept == scale
    ensures Decimals(p + [c]) > scale && Points(p + [c]) >= 1 && Mantissa(p + [c]) % 10 != 0
  {
    Extend(p, c);
  }

  lemma NoDigitsRejected(text: string, scale: int)
    requires Digits(Body(text)) == 0
    ensures Unparsable(text, scale)
  {
  }

  lemma HoldsPads(body: string, scale: nat, value: nat, kept: nat)
    requires Holds(body, scale, value, kept)
    ensures Pads(body, scale, value, kept) && Plain(body)
  {
  }

  lemma RejectsPadding(text: string, scale: int, value: nat, kept: nat)
    requires scale >= 0 && Pads(Body(text), scale, value, kept) && kept < scale && 10 * value > Limit(text)
    ensures Unparsable(text, scale)
  {
    forall magnitude: nat | magnitude <= Limit(text) ensures !Equation(Body(text), scale, magnitude) {
      PadTooLarge(Body(text), scale, value, kept, Limit(text), magnitude);
    }
    NothingParses(text, scale);
  }

  // ---------------------------------------------------------------------------------------------
  // A decimal printer, and the parser as its inverse

  function DigitChar(d: nat): char
    requires d <= 9
  {
    ('0' as int + d) as char
  }

  /** The decimal numeral of `n`, without leading zeros. */
  function Numeral(n: nat): string {
    if n < 10 then [DigitChar(n)] else Numeral(n / 10) + [DigitChar(n % 10)]
  }

  /** The last `width` decimal digits of `n`. */
  function Padded(n: nat, width: nat): string {
    if width == 0 then "" else Padded(n / 10, width - 1) + [DigitChar(n % 10)]
  }

  function Split(n: nat, p: nat): (r: (nat, nat))
    requires p >= 1
    ensures n == r.0 * p + r.1 && r.1 < p
  {
    (n / p, n % p)
  }

  /** `n` / 10^scale, written with exactly `scale` decimals. */
  function PrintMagnitude(n: nat, scale: nat): string {
    var (whole, part) := Split(n, Pow10(scale));
    if scale == 0 then Numeral(whole) else Numeral(whole) + ['.'] + Padded(part, scale)
  }

  function PrintDecimal(n: int, scale: nat): string {
    if n < 0 then "-" + PrintMagnitude(-n, scale) else PrintMagnitude(n, scale)
  }

  lemma {:induction false} NumeralReads(n: nat)
    ensures Numeral(n) != "" && AllDigits(Numeral(n)) && Decimal(Numeral(n)) == n
    ensures Mantissa(Numeral(n)) == n && Points(Numeral(n)) == 0 && Digits(Numeral(n)) >= 1 && Plain(Numeral(n))
  {
    if n < 10 {
      Extend("", DigitChar(n));
      assert "" + [DigitChar(n)] == Numeral(n) && Numeral(n)[..0] == "";
    } else {
      var p, c := Numeral(n / 10), DigitChar(n % 10);
      NumeralReads(n / 10);
      Extend(p, c);
      assert (p + [c])[..|p|] == p;
    }
  }

  /** Padded digits after a point: they shift the mantissa and are all decimals. */
  lemma {:induction false} PaddedReads(p: string, n: nat, width: nat)
    requires Plain(p) && Points(p) == 1 && n < Pow10(width)
    ensures var s := p + Padded(n, width);
            && Plain(s) && Points(s) == 1 && Digits(s) == Digits(p) + width && Decimals(s) == Decimals(p) + width
            && Mantissa(s) == Mantissa(p) * Pow10(width) + n
  {
    if width == 0 {
      assert p + "" == p;
    } else {
      var q, c := p + Padded(n / 10, width - 1), DigitChar(n % 10);
      assert p + Padded(n, width) == q + [c];
      assert Pow10(width) == 10 * Pow10(width - 1);
      PaddedReads(p, n / 10, width - 1);
      hide Pow10, Mantissa, Decimals, Points, Digits, Plain;
      Extend(q, c);
      ShiftTen(Mantissa(p), Pow10(width - 1), n / 10, n % 10);
    }
  }

  lemma ShiftTen(m: nat, p: nat, high: nat, low: nat)
    ensures 10 * (m * p + high) + low == m * (10 * p) + (10 * high + low)
  {
    assert m * (10 * p) == 10 * (m * p);
  }

  lemma MagnitudeReads(n: nat, scale: nat)
    ensures var s := PrintMagnitude(n, scale);
            && s != "" && Plain(s) && Digits(s) >= 1 && Mantissa(s) == n && Decimals(s) == scale && IsDigit(s[0])
  {
    var (whole, part) := Split(n, Pow10(scale));
    var w := Numeral(whole);
    NumeralReads(whole);
    NoPointNoDecimals(w);
    if scale != 0 {
      Extend(w, '.');
      PaddedReads(w + ['.'], part, scale);
    }
  }

  /** Parsing inverts printing, for every int64 and every scale. */
  lemma ParseInvertsPrint(n: i64, scale: nat)
    requires scale <= MAX_SCALE
    ensures ParsesTo(PrintDecimal(n, scale), scale, n)
  {
    var magnitude: nat := if n < 0 then -(n as int) else n;
    MagnitudeReads(magnitude, scale);
    var text, s := PrintDecimal(n, scale), PrintMagnitude(magnitude, scale);
    assert Body(text) == s;
    assert Equation(Body(text), scale, magnitude);
    MagnitudeParses(text, scale, magnitude);
  }

  // ---------------------------------------------------------------------------------------------
  // Which texts parse, and to what

  /** Digits `a`, and if there is a point, digits `b` behind it. */
  function Shape(a: string, pointed: bool, b: string): string {
    a + if pointed then "." + b else ""
  }

  /** Appending digits `a` to what read as digits `q`. */
  lemma {:induction false} DigitRun(p: string, q: string, a: string)
    requires AllDigits(q) && AllDigits(a) && Mantissa(p) == Decimal(q)
    ensures Mantissa(p + a) == Decimal(q + a) && Points(p + a) == Points(p) && Digits(p + a) == Digits(p) + |a|
    ensures Decimals(p + a) == Decimals(p) + if Points(p) >= 1 then |a| else 0
    ensures Plain(p + a) <==> Plain(p)
  {
    if a == "" {
      assert p + a == p && q + a == q;
    } else {
      var front, c := a[..|a| - 1], a[|a| - 1];
      DigitRun(p, q, front);
      assert p + a == (p + front) + [c] && q + a == (q + front) + [c];
      assert (q + a)[..|q + a| - 1] == q + front;
      hide Mantissa, Points, Digits, Decimals, Plain;
      Extend(p + front, c);
    }
  }

  lemma ShapeReads(a: string, pointed: bool, b: string)
    requires AllDigits(a) && AllDigits(b) && (!pointed ==> b == "")
    ensures var s := Shape(a, pointed, b);
            Plain(s) && Digits(s) == |a| + |b| && Mantissa(s) == Decimal(a + b) && Decimals(s) == |b|
  {
    hide Mantissa, Points, Digits, Decimals, Plain, Decimal;
    NothingReads();
    DigitRun("", "", a);
    assert "" + a == a && a + "" == a;
    if pointed {
      Extend(a, '.');
      assert Plain(a + ['.']);
      DigitRun(a + ".", a, b);
      assert a + "." + b == Shape(a, pointed, b);
    }
  }

  lemma NothingReads()
    ensures Mantissa("") == Decimal("") == 0 && Points("") == Digits("") == Decimals("") == 0 && Plain("")
  {
  }

  lemma {:induction false} PlainShape(s: string) returns (a: string, pointed: bool, b: string)
    requires Plain(s)
    ensures AllDigits(a) && AllDigits(b) && (!pointed ==> b == "") && s == Shape(a, pointed, b)
    ensures pointed <==> Points(s) == 1
  {
    a, pointed, b := "", false, "";
    if s != "" {
      var n := |s| - 1;
      assert s == s[..n] + [s[n]];
      Extend(s[..n], s[n]);
      a, pointed, b := PlainShape(s[..n]);
      hide Mantissa, Digits, Decimals, Plain;
      if s[n] == '.' {
        pointed := true;
      } else if pointed {
        b := b + [s[n]];
      } else {
        a := a + [s[n]];
      }
    }
  }

  /** A sign or none, digits, and perhaps a point and more digits: such a text parses exactly when it has a digit,
      the scale is one of 0 to 18, and the exact value, the digits read as one number over ten to the power of the
      number behind the point, is at that scale an integer of 64 bits with its sign; and to that integer. */
  lemma ParsesIff(sign: string, a: string, pointed: bool, b: string, scale: int, n: int)
    requires sign in {"", "+", "-"} && AllDigits(a) && AllDigits(b) && (!pointed ==> b == "")
    ensures ParsesTo(sign + Shape(a, pointed, b), scale, n)
       <==> && 0 <= scale <= 18 && |a| + |b| > 0
            && -0x8000_0000_0000_0000 <= n <= 0x7FFF_FFFF_FFFF_FFFF
            && (if sign == "-" then -n else n) * Pow10(|b|) == Decimal(a + b) * Pow10(scale)
  {
    var s := Shape(a, pointed, b);
    ShapeReads(a, pointed, b);
    assert s != "" ==> s[0] != '+' && s[0] != '-';
    assert Body(sign + s) == s && (IsNegative(sign + s) <==> sign == "-") by {
      if sign != "" {
        assert (sign + s)[0] == sign[0] && (sign + s)[1..] == s;
      } else {
        assert sign + s == s;
      }
    }
    hide Body, IsNegative, Shape, Plain, Digits, Mantissa, Decimals, Pow10, Decimal;
    NegatedProduct(n, Pow10(|b|));
  }

  /** And no other text parses. */
  lemma ParsesOnlyShapes(text: string, scale: int, n: int) returns (sign: string, a: string, pointed: bool, b: string)
    requires ParsesTo(text, scale, n)
    ensures sign in {"", "+", "-"} && AllDigits(a) && AllDigits(b) && (!pointed ==> b == "")
    ensures text == sign + Shape(a, pointed, b)
  {
    sign := if IsSigned(text) then [text[0]] else "";
    a, pointed, b := PlainShape(Body(text));
    hide Shape, Plain, Digits, Mantissa, Decimals, Pow10;
    assert text == sign + Body(text);
  }
}
