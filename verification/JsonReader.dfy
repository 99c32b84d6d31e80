/** The hand-written JSON scanner: it looks for a quoted key followed by a colon and returns the text of
    the value after it, without building a document. */
module JsonReader {
  import opened Words
  import opened Wrappers

  datatype Lookup = Missing | Found(text: string, quoted: bool)

  predicate IsWhitespace(c: char) {
    c == ' ' || c == '\n' || c == '\r' || c == '\t'
  }

  // ---------------------------------------------------------------------------------------------
  // Specification, on the unread part of the text

  /** The index of the first `c`, or the length when there is none. */
  function IndexOf(s: string, c: char): (i: nat)
    ensures i <= |s|
  {
    if s == [] || s[0] == c then 0 else 1 + IndexOf(s[1..], c)
  }

  function SkipWhitespace(s: string): (t: string)
    ensures |t| <= |s|
  {
    if s != [] && IsWhitespace(s[0]) then SkipWhitespace(s[1..]) else s
  }

  /** The first quote that is at the start of `s` or not preceded by a backslash, or the length. */
  function ClosingQuote(s: string, from: nat): (i: nat)
    requires from <= |s|
    ensures from <= i <= |s|
    decreases |s| - from
  {
    if from == |s| || (s[from] == '"' && (from == 0 || s[from - 1] != '\\')) then from else ClosingQuote(s, from + 1)
  }

  predicate EndsToken(c: char) {
    c == ',' || c == '}' || IsWhitespace(c)
  }

  function TokenLength(s: string): (n: nat)
    ensures n <= |s|
  {
    if s == [] || EndsToken(s[0]) then 0 else 1 + TokenLength(s[1..])
  }

  /** The value that starts `s`. */
  function ReadValue(s: string): Lookup {
    if s == [] then Missing
    else if s[0] == '"' then
      var e := ClosingQuote(s[1..], 0);
      if e == |s[1..]| then Missing else Found(s[1..][..e], true)
    else if TokenLength(s) == 0 then Missing
    else Found(s[..TokenLength(s)], false)
  }

  predicate ColonFollows(s: string) {
    var t := SkipWhitespace(s);
    t != [] && t[0] == ':'
  }

  /** Quoted strings are taken in order; one that is followed by a colon and equals `key` decides. */
  function Scan(s: string, key: string): Lookup
    decreases |s|
  {
    var q := IndexOf(s, '"');
    if q + 1 >= |s| then Missing else ScanQuoted(s[q + 1..], key)
  }

  /** `s` is what follows an opening quote. */
  function ScanQuoted(s: string, key: string): Lookup
    decreases |s|
  {
    var e := IndexOf(s, '"');
    if e == |s| then Missing
    else if ColonFollows(s[e + 1..]) && s[..e] == key then ReadValue(SkipWhitespace(SkipWhitespace(s[e + 1..])[1..]))
    else Scan(s[e + 1..], key)
  }

  function FindValue(payload: string, key: string): Lookup {
    if key == "" then Missing else Scan(payload, key)
  }

  // ---------------------------------------------------------------------------------------------
  // The scanner itself

  method FindJsonValue(payload: string, key: string) returns (found: bool, value: string, quoted: bool)
    ensures found <==> FindValue(payload, key).Found?
    ensures found ==> FindValue(payload, key) == Found(value, quoted)
  {
    hide Scan, ScanQuoted, SkipWhitespace, IndexOf, ReadValue, ColonFollows;
    value, quoted := "", false;
    if key == "" {
      assert FindValue(payload, key) == Missing;
      return false, value, quoted;
    }
    var pos := 0;
    while pos < |payload|
      invariant pos <= |payload|
      invariant Scan(payload[pos..], key) == Scan(payload, key)
    {
      ScanAt(payload, pos, key);
      var quote := pos + IndexOf(payload[pos..], '"');
      if quote + 1 >= |payload| {
        return false, value, quoted;
      }
      var keyStart := quote + 1;
      var keyEnd := keyStart + IndexOf(payload[keyStart..], '"');
      if keyEnd == |payload| {
        return false, value, quoted;
      }
      var afterKey := AfterWhitespace(payload, keyEnd + 1);
      if afterKey >= |payload| || payload[afterKey] != ':' {
        pos := keyEnd + 1;
        continue;
      }
      if payload[keyStart..keyEnd] != key {
        pos := keyEnd + 1;
        continue;
      }
      assert payload[afterKey..][1..] == payload[afterKey + 1..];
      var valueStart := AfterWhitespace(payload, afterKey + 1);
      found, value, quoted := ReadJsonValue(payload, valueStart);
      return;
    }
    ScanEmpty(key);
    assert payload[pos..] == "";
    return false, value, quoted;
  }

  lemma ScanEmpty(key: string)
    ensures Scan("", key) == Missing
  {
  }

  lemma ScanAt(payload: string, pos: nat, key: string)
    requires pos < |payload|
    ensures var keyStart := pos + IndexOf(payload[pos..], '"') + 1;
            if keyStart >= |payload| then Scan(payload[pos..], key) == Missing
            else var keyEnd := keyStart + IndexOf(payload[keyStart..], '"');
                 if keyEnd == |payload| then Scan(payload[pos..], key) == Missing
                 else var tail := payload[keyEnd + 1..];
                      Scan(payload[pos..], key) == if ColonFollows(tail) && payload[keyStart..keyEnd] == key
                                                   then ReadValue(SkipWhitespace(SkipWhitespace(tail)[1..]))
                                                   else Scan(tail, key)
  {
    hide IndexOf, SkipWhitespace, ReadValue, ColonFollows;
    var keyStart := pos + IndexOf(payload[pos..], '"') + 1;
    if keyStart < |payload| {
      var body := payload[keyStart..];
      assert payload[pos..][keyStart - pos..] == body;
      var e := IndexOf(body, '"');
      if e < |body| {
        assert body[e + 1..] == payload[keyStart + e + 1..] && body[..e] == payload[keyStart..keyStart + e];
      }
    }
  }

  method AfterWhitespace(payload: string, start: nat) returns (i: nat)
    requires start <= |payload|
    ensures start <= i <= |payload| && payload[i..] == SkipWhitespace(payload[start..])
    ensures ColonFollows(payload[start..]) <==> i < |payload| && payload[i] == ':'
  {
    i := start;
    while i < |payload| && IsWhitespace(payload[i])
      invariant start <= i <= |payload|
      invariant SkipWhitespace(payload[i..]) == SkipWhitespace(payload[start..])
    {
      assert payload[i..][1..] == payload[i + 1..];
      i := i + 1;
    }
  }

  method ReadJsonValue(payload: string, valueStart: nat) returns (found: bool, value: string, quoted: bool)
    requires valueStart <= |payload|
    ensures found <==> ReadValue(payload[valueStart..]).Found?
    ensures found ==> ReadValue(payload[valueStart..]) == Found(value, quoted)
  {
    value, quoted := "", false;
    if valueStart >= |payload| {
      return false, value, quoted;
    }
    ghost var rest := payload[valueStart..];
    quoted := payload[valueStart] == '"';
    if quoted {
      assert rest[1..] == payload[valueStart + 1..];
      found, value := ReadQuoted(payload, valueStart + 1);
      return;
    }
    var valueEnd := valueStart;
    while valueEnd < |payload| && payload[valueEnd] != ',' && payload[valueEnd] != '}'
        && !IsWhitespace(payload[valueEnd])
      invariant valueStart <= valueEnd <= |payload|
      invariant valueEnd - valueStart + TokenLength(payload[valueEnd..]) == TokenLength(rest)
    {
      assert payload[valueEnd..][1..] == payload[valueEnd + 1..];
      valueEnd := valueEnd + 1;
    }
    value := payload[valueStart..valueEnd];
    assert value == rest[..valueEnd - valueStart];
    return value != "", value, quoted;
  }

  method ReadQuoted(payload: string, valueStart: nat) returns (found: bool, value: string)
    requires valueStart <= |payload|
    ensures found <==> ClosingQuote(payload[valueStart..], 0) < |payload| - valueStart
    ensures found ==> value == payload[valueStart..][..ClosingQuote(payload[valueStart..], 0)]
  {
    var valueEnd := valueStart;
    while valueEnd < |payload|
      invariant valueStart <= valueEnd <= |payload|
      invariant ClosingQuote(payload[valueStart..], valueEnd - valueStart) == ClosingQuote(payload[valueStart..], 0)
    {
      if payload[valueEnd] == '"' && (valueEnd == valueStart || payload[valueEnd - 1] != '\\') {
        value := payload[valueStart..valueEnd];
        return true, value;
      }
      valueEnd := valueEnd + 1;
    }
    return false, "";
  }

  // ---------------------------------------------------------------------------------------------
  // Typed reads

  function ReadString(payload: string, key: string): Option<string> {
    match FindValue(payload, key)
    case Found(text, true) => Some(text)
    case _ => None
  }

  function ReadBool(payload: string, key: string): Option<bool> {
    match FindValue(payload, key)
    case Found("true", false) => Some(true)
    case Found("false", false) => Some(false)
    case _ => None
  }

  predicate IsDigit(c: char) {
    '0' <= c <= '9'
  }

  function DigitOf(c: char): nat
    requires IsDigit(c)
  {
    c as int - '0' as int
  }

  predicate AllDigits(s: string) {
    forall i :: 0 <= i < |s| ==> IsDigit(s[i])
  }

  /** The number a string of decimal digits denotes. */
  function Decimal(s: string): nat
    requires AllDigits(s)
  {
    if s == "" then 0 else 10 * Decimal(s[..|s| - 1]) + DigitOf(s[|s| - 1])
  }

  /** A nonempty run of digits, quoted or not, whose value fits 64 bits. */
  function ReadU64(payload: string, key: string): Option<u64> {
    match FindValue(payload, key)
    case Found(text, _) =>
      if text != "" && AllDigits(text) && Decimal(text) <= MAX_U64 then Some(Decimal(text)) else None
    case Missing => None
  }

  method ReadJsonString(payload: string, key: string) returns (ok: bool, value: string)
    ensures ok <==> ReadString(payload, key).Some?
    ensures ok ==> ReadString(payload, key) == Some(value)
  {
    var quoted;
    ok, value, quoted := FindJsonValue(payload, key);
    ok := ok && quoted;
  }

  method ReadJsonBool(payload: string, key: string) returns (ok: bool, value: bool)
    ensures ok <==> ReadBool(payload, key).Some?
    ensures ok ==> ReadBool(payload, key) == Some(value)
  {
    var found, raw, quoted := FindJsonValue(payload, key);
    if !found || quoted {
      return false, false;
    }
    if raw == "true" {
      return true, true;
    }
    if raw == "false" {
      return true, false;
    }
    return false, false;
  }

  lemma {:induction false} DecimalGrows(s: string, i: nat)
    requires AllDigits(s) && i <= |s|
    ensures Decimal(s[..i]) <= Decimal(s)
    decreases |s| - i
  {
    if i == |s| {
      assert s[..i] == s;
    } else {
      assert s[..i + 1][..i] == s[..i];
      DecimalGrows(s, i + 1);
    }
  }

  /** The accumulation is guarded before each step, so it never exceeds 64 bits. */
  method ReadJsonU64(payload: string, key: string) returns (ok: bool, value: u64)
    ensures ok <==> ReadU64(payload, key).Some?
    ensures ok ==> ReadU64(payload, key) == Some(value)
  {
    var found, raw, quoted := FindJsonValue(payload, key);
    if !found || raw == "" {
      return false, 0;
    }
    var parsed: u64 := 0;
    var i := 0;
    while i < |raw|
      invariant i <= |raw| && AllDigits(raw[..i]) && parsed as int == Decimal(raw[..i])
    {
      var ch := raw[i];
      if ch < '0' || ch > '9' {
        return false, 0;
      }
      var digit := DigitOf(ch);
      assert raw[..i + 1][..i] == raw[..i];
      if parsed as int > (MAX_U64 - digit) / 10 {
        assert Decimal(raw[..i + 1]) > MAX_U64;
        if AllDigits(raw) {
          DecimalGrows(raw, i + 1);
        }
        return false, 0;
      }
      parsed := parsed as int * 10 + digit;
      i := i + 1;
    }
    assert raw[..i] == raw;
    return true, parsed;
  }

  function Lower(c: char): char {
    if 'A' <= c <= 'Z' then (c as int - 'A' as int + 'a' as int) as char else c
  }

  predicate EqualIgnoringCase(a: string, b: string) {
    |a| == |b| && forall i :: 0 <= i < |a| ==> Lower(a[i]) == Lower(b[i])
  }

  /** Two texts are equal ignoring case exactly when they are equally long and differ, place by place, at most in
      being the same letter A to Z, whose code is 32 lower, or a to z. */
  lemma EqualIgnoringCaseIff(a: string, b: string)
    ensures EqualIgnoringCase(a, b)
       <==> |a| == |b|
            && forall i :: 0 <= i < |a| ==>
                 || a[i] == b[i]
                 || (65 <= a[i] as int <= 90 && b[i] as int == a[i] as int + 32)
                 || (65 <= b[i] as int <= 90 && a[i] as int == b[i] as int + 32)
  {
    if |a| == |b| {
      forall i | 0 <= i < |a|
        ensures Lower(a[i]) == Lower(b[i])
           <==> || a[i] == b[i]
                || (65 <= a[i] as int <= 90 && b[i] as int == a[i] as int + 32)
                || (65 <= b[i] as int <= 90 && a[i] as int == b[i] as int + 32)
      {
        SameLetterIff(a[i], b[i]);
      }
      hide Lower;
    }
  }

  lemma SameLetterIff(c: char, d: char)
    ensures Lower(c) == Lower(d)
       <==> || c == d
            || (65 <= c as int <= 90 && d as int == c as int + 32)
            || (65 <= d as int <= 90 && c as int == d as int + 32)
  {
    assert 'A' as int == 65 && 'Z' as int == 90 && 'a' as int == 97;
  }

  /** The scanner's character classes, by code. */
  lemma CharacterCodes(c: char)
    ensures IsWhitespace(c) <==> c as int in {9, 10, 13, 32}
    ensures EndsToken(c) <==> c as int in {9, 10, 13, 32, 44, 125}
    ensures IsDigit(c) <==> 48 <= c as int <= 57
    ensures IsDigit(c) ==> DigitOf(c) == c as int - 48
  {
  }

  lemma {:induction false} ClosingQuoteIs(s: string, from: nat, e: nat)
    requires from <= e <= |s|
    requires forall i :: from <= i < e && s[i] == '"' ==> i > 0 && s[i - 1] == '\\'
    requires e < |s| ==> s[e] == '"' && (e == 0 || s[e - 1] != '\\')
    ensures ClosingQuote(s, from) == e
    decreases e - from
  {
    if from < e {
      ClosingQuoteIs(s, from + 1, e);
    }
  }

  /** A quoted value ends at the first quote that no backslash precedes, escapes and all, and is nothing when there
      is none. */
  lemma QuotedValueEnds(text: string, tail: string)
    requires forall i :: 0 <= i < |text| && text[i] == '"' ==> i > 0 && text[i - 1] == '\\'
    ensures text == "" || text[|text| - 1] != '\\' ==> ReadValue("\"" + (text + ("\"" + tail))) == Found(text, true)
    ensures ReadValue("\"" + text) == Missing
  {
    hide ClosingQuote;
    var s := "\"" + text;
    assert s[1..] == text;
    ClosingQuoteIs(text, 0, |text|);
    if text == "" || text[|text| - 1] != '\\' {
      var body := text + ("\"" + tail);
      assert ("\"" + body)[1..] == body && body[..|text|] == text && body[|text|] == '"';
      assert forall i :: 0 <= i < |text| ==> body[i] == text[i];
      ClosingQuoteIs(body, 0, |text|);
    }
  }

  method AsciiEqualIgnoreCase(lhs: string, rhs: string) returns (equal: bool)
    ensures equal <==> EqualIgnoringCase(lhs, rhs)
  {
    if |lhs| != |rhs| {
      return false;
    }
    for i := 0 to |lhs|
      invariant forall j :: 0 <= j < i ==> Lower(lhs[j]) == Lower(rhs[j])
    {
      var left, right := lhs[i], rhs[i];
      if left >= 'A' && left <= 'Z' {
        left := (left as int - 'A' as int + 'a' as int) as char;
      }
      if right >= 'A' && right <= 'Z' {
        right := (right as int - 'A' as int + 'a' as int) as char;
      }
      if left != right {
        return false;
      }
    }
    return true;
  }
}
