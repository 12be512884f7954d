// Trigger conditions of the logger (c_src/xample_logger.c): the expression
// language "u:N:l:N:d:N:p:N:n:N", its parser and printer, the bit-mask
// evaluator and the edge-gating rule applied to its result.

module Trigger {
  import opened Base

  const UpperLimitExceeded: bv8 := 0x01
  const BelowLowerLimit: bv8 := 0x02
  const ChangedByMoreThanDelta: bv8 := 0x04
  const ChangedByMoreThanNegativeDelta: bv8 := 0x08
  const ChangedByMoreThanPositiveDelta: bv8 := 0x10
  const LimitBits: bv8 := 0x03
  const DeltaBits: bv8 := 0x1C

  /** trigger_t: the armed conditions and their unsigned long thresholds. */
  datatype Trigger = Trigger(
    mask: bv8,
    upperLimit: nat,
    lowerLimit: nat,
    delta: nat,
    negativeDelta: nat,
    positiveDelta: nat)

  /** The all-zero trigger that parse_trigger starts from (memset). */
  const Disarmed := Trigger(0, 0, 0, 0, 0, 0)

  /** A trigger as parse_trigger leaves it: only the five condition bits,
      64-bit thresholds, and a zero threshold for every disarmed condition. */
  predicate Canonical(t: Trigger)
  {
    && (t.mask & 0xE0) == 0
    && t.upperLimit < U64 && t.lowerLimit < U64 && t.delta < U64
    && t.negativeDelta < U64 && t.positiveDelta < U64
    && ((t.mask & UpperLimitExceeded) == 0 ==> t.upperLimit == 0)
    && ((t.mask & BelowLowerLimit) == 0 ==> t.lowerLimit == 0)
    && ((t.mask & ChangedByMoreThanDelta) == 0 ==> t.delta == 0)
    && ((t.mask & ChangedByMoreThanNegativeDelta) == 0 ==> t.negativeDelta == 0)
    && ((t.mask & ChangedByMoreThanPositiveDelta) == 0 ==> t.positiveDelta == 0)
  }

  // ---------------------------------------------------------------------
  // Characters of a C string

  const Nul: char := '\0'

  /** *(ptr + k): the character at k, or the terminating NUL past the end. */
  function Peek(s: string, k: nat): char
  {
    if k < |s| then s[k] else Nul
  }

  predicate IsDigit(c: char)
  {
    '0' <= c <= '9'
  }

  predicate IsKey(c: char)
  {
    c == 'u' || c == 'l' || c == 'd' || c == 'n' || c == 'p'
  }

  function DigitValue(c: char): nat
  {
    if IsDigit(c) then c as int - '0' as int else 0
  }

  function DigitChar(d: nat): (c: char)
    requires d < 10
    ensures IsDigit(c) && DigitValue(c) == d
  {
    ('0' as int + d) as char
  }

  /** The condition bit a key letter arms. */
  function KeyBit(c: char): bv8
    requires IsKey(c)
  {
    if c == 'u' then UpperLimitExceeded
    else if c == 'l' then BelowLowerLimit
    else if c == 'd' then ChangedByMoreThanDelta
    else if c == 'n' then ChangedByMoreThanNegativeDelta
    else ChangedByMoreThanPositiveDelta
  }

  /** One parsed "k:N": the threshold behind argp becomes v and the key's bit
      is ORed into the mask. */
  function Assign(t: Trigger, c: char, v: nat): (r: Trigger)
    requires IsKey(c)
    ensures r.mask == t.mask | KeyBit(c)
  {
    if c == 'u' then t.(mask := t.mask | UpperLimitExceeded, upperLimit := v)
    else if c == 'l' then t.(mask := t.mask | BelowLowerLimit, lowerLimit := v)
    else if c == 'd' then t.(mask := t.mask | ChangedByMoreThanDelta, delta := v)
    else if c == 'n' then t.(mask := t.mask | ChangedByMoreThanNegativeDelta, negativeDelta := v)
    else t.(mask := t.mask | ChangedByMoreThanPositiveDelta, positiveDelta := v)
  }

  // ---------------------------------------------------------------------
  // Decimal numbers

  /** The length of the maximal run of digits at the start of s. */
  function DigitRun(s: string): (n: nat)
    ensures n <= |s|
    ensures forall j :: 0 <= j < n ==> IsDigit(s[j])
    ensures !IsDigit(Peek(s, n))
  {
    if s == [] || !IsDigit(s[0]) then 0 else 1 + DigitRun(s[1..])
  }

  /** The value of a digit string, without any bound. */
  function DecimalValue(ds: string): nat
  {
    if ds == [] then 0 else DecimalValue(ds[..|ds| - 1]) * 10 + DigitValue(ds[|ds| - 1])
  }

  /** v = v*10 + (*ptr - '0') on an unsigned long, digit by digit. */
  function Accumulate(ds: string): (v: nat)
    ensures v < U64
  {
    if ds == [] then 0 else (Accumulate(ds[..|ds| - 1]) * 10 + DigitValue(ds[|ds| - 1])) % U64
  }

  /** %lu: the shortest decimal representation. */
  function DecimalString(n: nat): (s: string)
    ensures 1 <= |s|
    ensures forall j :: 0 <= j < |s| ==> IsDigit(s[j])
    ensures DecimalValue(s) == n
    decreases n
  {
    if n < 10 then [DigitChar(n)]
    else
      var s := DecimalString(n / 10) + [DigitChar(n % 10)];
      assert s[..|s| - 1] == DecimalString(n / 10);
      s
  }

  /** The wrapping accumulator of parse_unsigned yields the decimal value of
      the digits modulo 2^64. */
  lemma {:induction false} AccumulateIsDecimal(ds: string)
    ensures Accumulate(ds) == DecimalValue(ds) % U64
  {
    if ds != [] {
      var pre := ds[..|ds| - 1];
      AccumulateIsDecimal(pre);
      ModMulAdd(DecimalValue(pre), DigitValue(ds[|ds| - 1]));
    }
  }

  lemma ModMulAdd(a: nat, d: nat)
    ensures ((a % U64) * 10 + d) % U64 == (a * 10 + d) % U64
  {
    var q, r := a / U64, a % U64;
    assert a * 10 + d == (q * 10) * U64 + (r * 10 + d);
    ModPlusMultiple(q * 10, r * 10 + d);
  }

  lemma ModPlusMultiple(k: nat, x: nat)
    ensures (k * U64 + x) % U64 == x % U64
  {
    var q, r := x / U64, x % U64;
    assert k * U64 + x == (k + q) * U64 + r;
  }

  /** A digit run that stops at a non-digit has exactly that length. */
  lemma {:induction false} DigitRunIs(s: string, n: nat)
    requires n <= |s|
    requires forall j :: 0 <= j < n ==> IsDigit(s[j])
    requires !IsDigit(Peek(s, n))
    ensures DigitRun(s) == n
  {
    if n > 0 {
      DigitRunIs(s[1..], n - 1);
    }
  }

  /** The number of decimal digits of n is at most k when n < 10^k. */
  lemma {:induction false} DecimalStringLength(n: nat, k: nat)
    requires 1 <= k && n < Pow10(k)
    ensures |DecimalString(n)| <= k
    decreases k
  {
    if n >= 10 {
      DecimalStringLength(n / 10, k - 1);
    }
  }

  function Pow10(k: nat): nat
  {
    if k == 0 then 1 else 10 * Pow10(k - 1)
  }

  lemma {:induction false} Pow10Add(a: nat, b: nat)
    ensures Pow10(a + b) == Pow10(a) * Pow10(b)
  {
    if a > 0 {
      Pow10Add(a - 1, b);
      assert Pow10(a + b) == 10 * Pow10(a - 1 + b);
    }
  }

  // ---------------------------------------------------------------------
  // parse_unsigned and parse_trigger

  /** parse_unsigned: reads the maximal run of digits starting at p and
      returns its value (wrapped to 64 bits), the digit count and the
      position after the run. */
  method ParseUnsigned(s: string, p: nat) returns (v: nat, n: nat, q: nat)
    requires p <= |s|
    ensures n == DigitRun(s[p..]) && q == p + n
    ensures v == Accumulate(s[p..q]) && v == DecimalValue(s[p..q]) % U64
  {
    v, n, q := 0, 0, p;
    while IsDigit(Peek(s, q))
      invariant p <= q <= |s| && n == q - p
      invariant forall j :: p <= j < q ==> IsDigit(s[j])
      invariant v == Accumulate(s[p..q])
      decreases |s| - q
    {
      assert s[p..q + 1][..q - p] == s[p..q];
      v := (v * 10 + DigitValue(s[q])) % U64;
      n := n + 1;
      q := q + 1;
    }
    assert Peek(s[p..], n) == Peek(s, q);
    DigitRunIs(s[p..], n);
    AccumulateIsDecimal(s[p..q]);
  }

  /** The parser of parse_trigger, from a position where a "k:N" item may
      start, with t the trigger built so far; None is the -1 return. */
  function ParseItems(s: string, t: Trigger): Option<Trigger>
    decreases |s|
  {
    var c := Peek(s, 0);
    if c == Nul then Some(t)
    else if !IsKey(c) || Peek(s, 1) != ':' then None
    else
      var n := DigitRun(s[2..]);
      if n == 0 then None
      else
        var v := Accumulate(s[2..2 + n]);
        var rest := s[2 + n..];
        var c2 := Peek(rest, 0);
        if c2 != ':' && c2 != Nul then None
        else ParseItems(if c2 == ':' then rest[1..] else rest, Assign(t, c, v))
  }

  /** parse_trigger's result for an expression (None standing for NULL). */
  function ParseTriggerSpec(expr: Option<string>): Option<Trigger>
  {
    match expr
    case None => None
    case Some(s) => ParseItems(s, Disarmed)
  }

  /** What one pass through the switch of parse_trigger does at position p:
      the end of the string, an error, or an item k:N followed by the
      position where the next item starts. */
  datatype Step = Done | Fail | Found(key: char, value: nat, next: nat)

  function ParseStep(s: string, p: nat): (r: Step)
    requires p <= |s|
    ensures r.Found? ==> IsKey(r.key) && p < r.next <= |s|
  {
    var c := Peek(s, p);
    if c == Nul then Done
    else if !IsKey(c) || Peek(s, p + 1) != ':' then Fail
    else
      var n := DigitRun(s[p + 2..]);
      var q := p + 2 + n;
      if n == 0 then Fail
      else if Peek(s, q) != ':' && Peek(s, q) != Nul then Fail
      else Found(c, Accumulate(s[p + 2..q]), if Peek(s, q) == ':' then q + 1 else q)
  }

  /** ParseItems takes the step ParseStep finds at the start of the string. */
  lemma ParseItemsStep(u: string, t: Trigger)
    ensures var r := ParseStep(u, 0);
      ParseItems(u, t) ==
        if r.Done? then Some(t)
        else if r.Fail? then None
        else ParseItems(u[r.next..], Assign(t, r.key, r.value))
  {
    var c := Peek(u, 0);
    if c != Nul && IsKey(c) && Peek(u, 1) == ':' {
      var n := DigitRun(u[2..]);
      var rest := u[2 + n..];
      assert Peek(rest, 0) == Peek(u, 2 + n);
      if Peek(u, 2 + n) == ':' {
        assert rest[1..] == u[2 + n + 1..];
      }
    }
  }

  /** The step at p of s is the step at 0 of s[p..], shifted by p. */
  lemma ParseStepShift(s: string, p: nat)
    requires p <= |s|
    ensures var a, b := ParseStep(s[p..], 0), ParseStep(s, p);
      (a.Done? <==> b.Done?) && (a.Fail? <==> b.Fail?) &&
      (a.Found? ==> b == Found(a.key, a.value, a.next + p))
  {
    var u := s[p..];
    assert Peek(u, 0) == Peek(s, p) && Peek(u, 1) == Peek(s, p + 1);
    if Peek(s, p) != Nul && IsKey(Peek(s, p)) && Peek(s, p + 1) == ':' {
      assert u[2..] == s[p + 2..];
      var n := DigitRun(s[p + 2..]);
      assert u[2..2 + n] == s[p + 2..p + 2 + n];
      assert Peek(u, 2 + n) == Peek(s, p + 2 + n);
    }
  }

  /** ParseItems on the rest of the string after p takes that step. */
  lemma ParseItemsAt(s: string, p: nat, t: Trigger)
    requires p <= |s|
    ensures var r := ParseStep(s, p);
      ParseItems(s[p..], t) ==
        if r.Done? then Some(t)
        else if r.Fail? then None
        else ParseItems(s[r.next..], Assign(t, r.key, r.value))
  {
    var u := s[p..];
    ParseItemsStep(u, t);
    ParseStepShift(s, p);
    var a, b := ParseStep(u, 0), ParseStep(s, p);
    if b.Found? {
      var rest := u[a.next..];
      assert rest == s[b.next..];
      assert ParseItems(u, t) == ParseItems(rest, Assign(t, b.key, b.value));
    }
  }

  /** The parser of parse_trigger as it walks the string by position. */
  function ParseFrom(s: string, p: nat, t: Trigger): Option<Trigger>
    requires p <= |s|
    decreases |s| - p
  {
    var r := ParseStep(s, p);
    if r.Done? then Some(t)
    else if r.Fail? then None
    else ParseFrom(s, r.next, Assign(t, r.key, r.value))
  }

  /** Walking by position parses the same as ParseItems on the rest. */
  lemma {:induction false} ParseFromIsItems(s: string, p: nat, t: Trigger)
    requires p <= |s|
    ensures ParseFrom(s, p, t) == ParseItems(s[p..], t)
    decreases |s| - p
  {
    ParseItemsAt(s, p, t);
    var r := ParseStep(s, p);
    if r.Found? {
      ParseFromIsItems(s, r.next, Assign(t, r.key, r.value));
    }
  }

  /** A key, ':' and a run of digits ending at q in ':' or the end make
      the step an item whose value is the run's value. */
  lemma StepFound(s: string, p: nat, q: nat, v: nat, t: Trigger)
    requires p + 2 <= q <= |s|
    requires IsKey(Peek(s, p)) && Peek(s, p + 1) == ':'
    requires q - (p + 2) == DigitRun(s[p + 2..]) > 0
    requires v == Accumulate(s[p + 2..q])
    requires Peek(s, q) == ':' || Peek(s, q) == Nul
    ensures ParseStep(s, p) == Found(Peek(s, p), v, if Peek(s, q) == ':' then q + 1 else q)
    ensures ParseFrom(s, p, t)
      == ParseFrom(s, if Peek(s, q) == ':' then q + 1 else q, Assign(t, Peek(s, p), v))
  {
  }

  /** parse_trigger: returns 0 and the trigger it filled in, or -1. On -1 the
      partly filled trigger is returned too, as in the source, and left
      unspecified. */
  method ParseTrigger(expr: Option<string>) returns (rc: int, t: Trigger)
    ensures rc == 0 || rc == -1
    ensures rc == 0 <==> ParseTriggerSpec(expr).Some?
    ensures rc == 0 ==> ParseTriggerSpec(expr) == Some(t)
  {
    if expr.None? {
      return -1, Disarmed;
    }
    var s := expr.value;
    t := Disarmed;
    var p := 0;
    ParseFromIsItems(s, 0, t);
    assert s[0..] == s;
    ghost var spec := ParseTriggerSpec(expr);
    while true
      invariant p <= |s|
      invariant ParseFrom(s, p, t) == spec
      decreases |s| - p
    {
      var c := Peek(s, p);
      if c == Nul {
        return 0, t;
      }
      if !IsKey(c) {
        return -1, t;
      }
      if Peek(s, p + 1) != ':' {
        return -1, t;
      }
      var v, n, q := ParseUnsigned(s, p + 2);
      if n == 0 {
        return -1, t;
      }
      if Peek(s, q) != ':' && Peek(s, q) != Nul {
        return -1, t;
      }
      var next := if Peek(s, q) == ':' then q + 1 else q;
      StepFound(s, p, q, v, t);
      p, t := next, Assign(t, c, v);
    }
  }

  // ---------------------------------------------------------------------
  // format_trigger

  /** "k:N:" as sprintf(vbuffer, "k:%lu:", value) writes it. */
  function ItemText(c: char, n: nat): string
  {
    [c, ':'] + DecimalString(n) + [':']
  }

  /** One strcat of format_trigger: the item when its bit is armed. */
  function Piece(armed: bool, c: char, n: nat): string
  {
    if armed then ItemText(c, n) else []
  }

  /** format_trigger: the armed items in the fixed order u, l, d, n, p. */
  function FormatTrigger(t: Trigger): string
  {
    Piece((t.mask & UpperLimitExceeded) != 0, 'u', t.upperLimit)
    + Piece((t.mask & BelowLowerLimit) != 0, 'l', t.lowerLimit)
    + Piece((t.mask & ChangedByMoreThanDelta) != 0, 'd', t.delta)
    + Piece((t.mask & ChangedByMoreThanNegativeDelta) != 0, 'n', t.negativeDelta)
    + Piece((t.mask & ChangedByMoreThanPositiveDelta) != 0, 'p', t.positiveDelta)
  }

  /** format_trigger: the buffer starts empty and each armed item is
      appended with strcat; the result is the text of the armed items in
      order, which parses back to the trigger (ParseFormatRoundTrip). */
  method Format(t: Trigger) returns (buffer: string)
    ensures buffer == FormatTrigger(t)
    ensures buffer == ItemsText(ArmedItems(t))
  {
    var u := (t.mask & UpperLimitExceeded) != 0;
    var l := (t.mask & BelowLowerLimit) != 0;
    var d := (t.mask & ChangedByMoreThanDelta) != 0;
    var n := (t.mask & ChangedByMoreThanNegativeDelta) != 0;
    var p := (t.mask & ChangedByMoreThanPositiveDelta) != 0;
    buffer := [];
    if u {
      buffer := buffer + ItemText('u', t.upperLimit);
    }
    assert buffer == Piece(u, 'u', t.upperLimit);
    if l {
      buffer := buffer + ItemText('l', t.lowerLimit);
    }
    assert buffer == Piece(u, 'u', t.upperLimit) + Piece(l, 'l', t.lowerLimit);
    if d {
      buffer := buffer + ItemText('d', t.delta);
    }
    assert buffer == Piece(u, 'u', t.upperLimit) + Piece(l, 'l', t.lowerLimit) + Piece(d, 'd', t.delta);
    if n {
      buffer := buffer + ItemText('n', t.negativeDelta);
    }
    assert buffer == Piece(u, 'u', t.upperLimit) + Piece(l, 'l', t.lowerLimit) + Piece(d, 'd', t.delta)
      + Piece(n, 'n', t.negativeDelta);
    if p {
      buffer := buffer + ItemText('p', t.positiveDelta);
    }
    assert buffer == Piece(u, 'u', t.upperLimit) + Piece(l, 'l', t.lowerLimit) + Piece(d, 'd', t.delta)
      + Piece(n, 'n', t.negativeDelta) + Piece(p, 'p', t.positiveDelta);
    FormatIsArmedItems(t);
  }

  // ---------------------------------------------------------------------
  // Sequences of items, the reference the parser and printer are held to

  datatype Item = Item(key: char, value: nat)

  predicate AllKeys(items: seq<Item>)
  {
    forall j :: 0 <= j < |items| ==> IsKey(items[j].key)
  }

  function ItemsText(items: seq<Item>): string
  {
    if items == [] then [] else ItemText(items[0].key, items[0].value) + ItemsText(items[1..])
  }

  /** Applying the items one after the other, each value read modulo 2^64. */
  function ApplyAll(t: Trigger, items: seq<Item>): Trigger
    requires AllKeys(items)
    decreases |items|
  {
    if items == [] then t else ApplyAll(Assign(t, items[0].key, items[0].value % U64), items[1..])
  }

  /** The item for one condition, when its bit is armed. */
  function Opt(armed: bool, c: char, n: nat): seq<Item>
  {
    if armed then [Item(c, n)] else []
  }

  /** The items format_trigger prints, in its order. */
  function ArmedItems(t: Trigger): seq<Item>
  {
    Opt((t.mask & UpperLimitExceeded) != 0, 'u', t.upperLimit)
    + Opt((t.mask & BelowLowerLimit) != 0, 'l', t.lowerLimit)
    + Opt((t.mask & ChangedByMoreThanDelta) != 0, 'd', t.delta)
    + Opt((t.mask & ChangedByMoreThanNegativeDelta) != 0, 'n', t.negativeDelta)
    + Opt((t.mask & ChangedByMoreThanPositiveDelta) != 0, 'p', t.positiveDelta)
  }

  /** Parsing one "k:N:" item sets k's threshold to N modulo 2^64, arms k,
      and continues with what follows. */
  lemma ParseItemText(c: char, n: nat, rest: string, t: Trigger)
    requires IsKey(c)
    ensures ParseItems(ItemText(c, n) + rest, t) == ParseItems(rest, Assign(t, c, n % U64))
  {
    var d := DecimalString(n);
    var s := ItemText(c, n) + rest;
    var q := 2 + |d|;
    assert s[2..] == d + ([':'] + rest);
    assert Peek(s[2..], |d|) == ':' && Peek(s, q) == ':';
    DigitRunIs(s[2..], |d|);
    assert s[2..q] == d;
    AccumulateIsDecimal(d);
    StepFound(s, 0, q, n % U64, t);
    ParseItemsStep(s, t);
    assert s[q + 1..] == rest;
  }

  /** The last item may omit its trailing ':'. */
  lemma ParseLastItem(c: char, n: nat, t: Trigger)
    requires IsKey(c)
    ensures ParseItems([c, ':'] + DecimalString(n), t) == Some(Assign(t, c, n % U64))
  {
    var d := DecimalString(n);
    var s := [c, ':'] + d;
    var q := |s|;
    assert s[2..] == d;
    DigitRunIs(s[2..], |d|);
    assert s[2..q] == d;
    AccumulateIsDecimal(d);
    StepFound(s, 0, q, n % U64, t);
    ParseItemsStep(s, t);
    assert s[q..] == [];
  }

  /** A run of "k:N:" items parses to the items applied in order: a later
      item for the same key overwrites the earlier value. */
  lemma {:induction false} ParseItemsText(items: seq<Item>, rest: string, t: Trigger)
    requires AllKeys(items)
    ensures ParseItems(ItemsText(items) + rest, t) == ParseItems(rest, ApplyAll(t, items))
  {
    if items == [] {
      assert ItemsText(items) + rest == rest;
    } else {
      var i0 := items[0];
      assert ItemsText(items) + rest == ItemText(i0.key, i0.value) + (ItemsText(items[1..]) + rest);
      ParseItemText(i0.key, i0.value, ItemsText(items[1..]) + rest, t);
      ParseItemsText(items[1..], rest, Assign(t, i0.key, i0.value % U64));
    }
  }

  /** The same, when the last item leaves out its trailing ':'. */
  lemma ParseWithoutTrailingColon(items: seq<Item>, c: char, n: nat)
    requires AllKeys(items) && IsKey(c)
    ensures ParseTriggerSpec(Some(ItemsText(items) + [c, ':'] + DecimalString(n)))
         == Some(Assign(ApplyAll(Disarmed, items), c, n % U64))
  {
    assert ItemsText(items) + [c, ':'] + DecimalString(n) == ItemsText(items) + ([c, ':'] + DecimalString(n));
    ParseItemsText(items, [c, ':'] + DecimalString(n), Disarmed);
    ParseLastItem(c, n, ApplyAll(Disarmed, items));
  }

  lemma {:induction false} ItemsTextAppend(a: seq<Item>, b: seq<Item>)
    ensures ItemsText(a + b) == ItemsText(a) + ItemsText(b)
  {
    if a != [] {
      assert (a + b)[1..] == a[1..] + b;
      ItemsTextAppend(a[1..], b);
    } else {
      assert a + b == b;
    }
  }

  lemma {:induction false} ApplyAllAppend(t: Trigger, a: seq<Item>, b: seq<Item>)
    requires AllKeys(a) && AllKeys(b)
    ensures AllKeys(a + b)
    ensures ApplyAll(t, a + b) == ApplyAll(ApplyAll(t, a), b)
    decreases |a|
  {
    if a != [] {
      assert (a + b)[1..] == a[1..] + b;
      ApplyAllAppend(Assign(t, a[0].key, a[0].value % U64), a[1..], b);
    } else {
      assert a + b == b;
    }
  }

  lemma PieceIsItemsText(armed: bool, c: char, n: nat)
    ensures Piece(armed, c, n) == ItemsText(Opt(armed, c, n))
  {
    if armed {
      assert ItemsText([Item(c, n)]) == ItemText(c, n) + ItemsText([]);
    }
  }

  /** Applying an optional item assigns it when armed. */
  lemma ApplyOpt(t: Trigger, armed: bool, c: char, n: nat)
    requires IsKey(c)
    ensures AllKeys(Opt(armed, c, n))
    ensures ApplyAll(t, Opt(armed, c, n)) == if armed then Assign(t, c, n % U64) else t
  {
    if armed {
      assert Opt(armed, c, n)[1..] == [];
    }
  }

  lemma ItemsTextFive(u: seq<Item>, l: seq<Item>, d: seq<Item>, n: seq<Item>, p: seq<Item>)
    ensures ItemsText(u + l + d + n + p)
         == ItemsText(u) + ItemsText(l) + ItemsText(d) + ItemsText(n) + ItemsText(p)
  {
    ItemsTextAppend(u, l);
    ItemsTextAppend(u + l, d);
    ItemsTextAppend(u + l + d, n);
    ItemsTextAppend(u + l + d + n, p);
  }

  /** format_trigger prints exactly the armed items, in order. */
  lemma FormatIsArmedItems(t: Trigger)
    ensures FormatTrigger(t) == ItemsText(ArmedItems(t))
  {
    var m := t.mask;
    PieceIsItemsText((m & UpperLimitExceeded) != 0, 'u', t.upperLimit);
    PieceIsItemsText((m & BelowLowerLimit) != 0, 'l', t.lowerLimit);
    PieceIsItemsText((m & ChangedByMoreThanDelta) != 0, 'd', t.delta);
    PieceIsItemsText((m & ChangedByMoreThanNegativeDelta) != 0, 'n', t.negativeDelta);
    PieceIsItemsText((m & ChangedByMoreThanPositiveDelta) != 0, 'p', t.positiveDelta);
    ItemsTextFive(
      Opt((m & UpperLimitExceeded) != 0, 'u', t.upperLimit),
      Opt((m & BelowLowerLimit) != 0, 'l', t.lowerLimit),
      Opt((m & ChangedByMoreThanDelta) != 0, 'd', t.delta),
      Opt((m & ChangedByMoreThanNegativeDelta) != 0, 'n', t.negativeDelta),
      Opt((m & ChangedByMoreThanPositiveDelta) != 0, 'p', t.positiveDelta));
  }

  lemma ApplyAllFive(t: Trigger, u: seq<Item>, l: seq<Item>, d: seq<Item>, n: seq<Item>, p: seq<Item>)
    requires AllKeys(u) && AllKeys(l) && AllKeys(d) && AllKeys(n) && AllKeys(p)
    ensures AllKeys(u + l + d + n + p)
    ensures ApplyAll(t, u + l + d + n + p)
         == ApplyAll(ApplyAll(ApplyAll(ApplyAll(ApplyAll(t, u), l), d), n), p)
  {
    ApplyAllAppend(t, u, l);
    ApplyAllAppend(t, u + l, d);
    ApplyAllAppend(t, u + l + d, n);
    ApplyAllAppend(t, u + l + d + n, p);
  }

  /** Applying the armed items of a canonical trigger to the all-zero trigger
      rebuilds it. */
  lemma ArmedItemsRebuild(t: Trigger)
    requires Canonical(t)
    ensures AllKeys(ArmedItems(t))
    ensures ApplyAll(Disarmed, ArmedItems(t)) == t
  {
    var m := t.mask;
    var u := Opt((m & UpperLimitExceeded) != 0, 'u', t.upperLimit);
    var l := Opt((m & BelowLowerLimit) != 0, 'l', t.lowerLimit);
    var d := Opt((m & ChangedByMoreThanDelta) != 0, 'd', t.delta);
    var n := Opt((m & ChangedByMoreThanNegativeDelta) != 0, 'n', t.negativeDelta);
    var p := Opt((m & ChangedByMoreThanPositiveDelta) != 0, 'p', t.positiveDelta);
    RebuildLimits(t);
    RebuildRates(t, ApplyAll(ApplyAll(ApplyAll(Disarmed, u), l), d));
    ApplyAllFive(Disarmed, u, l, d, n, p);
  }

  /** The u, l and d items of a canonical trigger rebuild its first three
      conditions. */
  lemma RebuildLimits(t: Trigger)
    requires Canonical(t)
    ensures var m := t.mask;
      && AllKeys(Opt((m & UpperLimitExceeded) != 0, 'u', t.upperLimit))
      && AllKeys(Opt((m & BelowLowerLimit) != 0, 'l', t.lowerLimit))
      && AllKeys(Opt((m & ChangedByMoreThanDelta) != 0, 'd', t.delta))
      && ApplyAll(ApplyAll(ApplyAll(Disarmed,
           Opt((m & UpperLimitExceeded) != 0, 'u', t.upperLimit)),
           Opt((m & BelowLowerLimit) != 0, 'l', t.lowerLimit)),
           Opt((m & ChangedByMoreThanDelta) != 0, 'd', t.delta))
         == Disarmed.(mask := m & 0x07, upperLimit := t.upperLimit, lowerLimit := t.lowerLimit, delta := t.delta)
  {
    var m := t.mask;
    ApplyOpt(Disarmed, (m & UpperLimitExceeded) != 0, 'u', t.upperLimit);
    var t1 := ApplyAll(Disarmed, Opt((m & UpperLimitExceeded) != 0, 'u', t.upperLimit));
    assert t1 == Disarmed.(mask := m & 0x01, upperLimit := t.upperLimit);
    ApplyOpt(t1, (m & BelowLowerLimit) != 0, 'l', t.lowerLimit);
    var t2 := ApplyAll(t1, Opt((m & BelowLowerLimit) != 0, 'l', t.lowerLimit));
    assert t2 == t1.(mask := m & 0x03, lowerLimit := t.lowerLimit);
    ApplyOpt(t2, (m & ChangedByMoreThanDelta) != 0, 'd', t.delta);
    var t3 := ApplyAll(t2, Opt((m & ChangedByMoreThanDelta) != 0, 'd', t.delta));
    assert t3 == t2.(mask := m & 0x07, delta := t.delta);
  }

  /** The n and p items then complete it. */
  lemma RebuildRates(t: Trigger, t3: Trigger)
    requires Canonical(t)
    requires t3 == Disarmed.(mask := t.mask & 0x07, upperLimit := t.upperLimit,
                             lowerLimit := t.lowerLimit, delta := t.delta)
    ensures var m := t.mask;
      && AllKeys(Opt((m & ChangedByMoreThanNegativeDelta) != 0, 'n', t.negativeDelta))
      && AllKeys(Opt((m & ChangedByMoreThanPositiveDelta) != 0, 'p', t.positiveDelta))
      && ApplyAll(ApplyAll(t3,
           Opt((m & ChangedByMoreThanNegativeDelta) != 0, 'n', t.negativeDelta)),
           Opt((m & ChangedByMoreThanPositiveDelta) != 0, 'p', t.positiveDelta))
         == t
  {
    var m := t.mask;
    ApplyOpt(t3, (m & ChangedByMoreThanNegativeDelta) != 0, 'n', t.negativeDelta);
    var t4 := ApplyAll(t3, Opt((m & ChangedByMoreThanNegativeDelta) != 0, 'n', t.negativeDelta));
    assert t4 == t3.(mask := m & 0x0F, negativeDelta := t.negativeDelta);
    ApplyOpt(t4, (m & ChangedByMoreThanPositiveDelta) != 0, 'p', t.positiveDelta);
    var t5 := ApplyAll(t4, Opt((m & ChangedByMoreThanPositiveDelta) != 0, 'p', t.positiveDelta));
    assert t5 == t4.(mask := m & 0x1F, positiveDelta := t.positiveDelta);
  }

  /** Printing a canonical trigger and parsing the text gives it back. */
  lemma FormatThenParse(t: Trigger)
    requires Canonical(t)
    ensures ParseTriggerSpec(Some(FormatTrigger(t))) == Some(t)
  {
    FormatIsArmedItems(t);
    ArmedItemsRebuild(t);
    ParseItemsText(ArmedItems(t), [], Disarmed);
    assert ItemsText(ArmedItems(t)) + [] == FormatTrigger(t);
  }

  /** Every trigger parse_trigger produces is canonical. */
  lemma {:induction false} ParseItemsCanonical(s: string, t: Trigger)
    requires Canonical(t)
    requires ParseItems(s, t).Some?
    ensures Canonical(ParseItems(s, t).value)
    decreases |s|
  {
    var c := Peek(s, 0);
    if c != Nul {
      var n := DigitRun(s[2..]);
      var v := Accumulate(s[2..2 + n]);
      var rest := s[2 + n..];
      var c2 := Peek(rest, 0);
      ParseItemsCanonical(if c2 == ':' then rest[1..] else rest, Assign(t, c, v));
    }
  }

  /** parse, format, parse: a parsed trigger survives the round trip through
      its printed form. */
  lemma ParseFormatRoundTrip(s: string)
    requires ParseTriggerSpec(Some(s)).Some?
    ensures var t := ParseTriggerSpec(Some(s)).value;
      ParseTriggerSpec(Some(FormatTrigger(t))) == Some(t)
  {
    ParseItemsCanonical(s, Disarmed);
    FormatThenParse(ParseTriggerSpec(Some(s)).value);
  }

  /** The empty expression is accepted and arms nothing; NULL is refused. */
  lemma ParseEmpty()
    ensures ParseTriggerSpec(Some("")) == Some(Disarmed)
    ensures ParseTriggerSpec(None) == None
  {
  }

  /** The ways an item can be malformed, each of them refused. */
  lemma ParseRejects(s: string, t: Trigger)
    ensures Peek(s, 0) != Nul && !IsKey(Peek(s, 0)) ==> ParseItems(s, t) == None
    ensures IsKey(Peek(s, 0)) && Peek(s, 1) != ':' ==> ParseItems(s, t) == None
    ensures IsKey(Peek(s, 0)) && Peek(s, 1) == ':' && !IsDigit(Peek(s, 2)) ==> ParseItems(s, t) == None
    ensures IsKey(Peek(s, 0)) && Peek(s, 1) == ':' && IsDigit(Peek(s, 2))
            && Peek(s, 2 + DigitRun(s[2..])) != ':' && Peek(s, 2 + DigitRun(s[2..])) != Nul
            ==> ParseItems(s, t) == None
  {
    if IsKey(Peek(s, 0)) && Peek(s, 1) == ':' {
      var n := DigitRun(s[2..]);
      assert Peek(s[2..], 0) == Peek(s, 2);
      assert Peek(s[2 + n..], 0) == Peek(s, 2 + n);
    }
  }

  /** The printed text of a canonical trigger fits format_trigger's static
      1024-byte buffer with room to spare: at most five items of "k:" plus 20
      digits plus ":". */
  lemma FormatFitsBuffer(t: Trigger)
    requires Canonical(t)
    ensures |FormatTrigger(t)| <= 115
  {
    Pow10Add(10, 10);
    assert Pow10(10) == 10_000_000_000;
    DecimalStringLength(t.upperLimit, 20);
    DecimalStringLength(t.lowerLimit, 20);
    DecimalStringLength(t.delta, 20);
    DecimalStringLength(t.negativeDelta, 20);
    DecimalStringLength(t.positiveDelta, 20);
  }

  // ---------------------------------------------------------------------
  // eval_trigger and the edge-gating rule

  /** |v - v0| */
  function Dist(v: u16, v0: u16): nat
  {
    if v >= v0 then (v - v0) as nat else (v0 - v) as nat
  }

  /** eval_trigger: the conditions of t that hold for sample v after v0. */
  function EvalTrigger(v: u16, v0: u16, t: Trigger): (r: bv8)
    ensures (r & !t.mask) == 0
    ensures (r & UpperLimitExceeded) != 0 <==>
      (t.mask & UpperLimitExceeded) != 0 && v as nat > t.upperLimit
    ensures (r & BelowLowerLimit) != 0 <==>
      (t.mask & BelowLowerLimit) != 0 && v as nat <= t.lowerLimit
    ensures (r & ChangedByMoreThanDelta) != 0 <==>
      (t.mask & ChangedByMoreThanDelta) != 0 && Dist(v, v0) > t.delta
    ensures (r & ChangedByMoreThanPositiveDelta) != 0 <==>
      (t.mask & ChangedByMoreThanPositiveDelta) != 0 && v > v0 && (v - v0) as nat > t.positiveDelta
    ensures (r & ChangedByMoreThanNegativeDelta) != 0 <==>
      (t.mask & ChangedByMoreThanNegativeDelta) != 0 && v < v0 && (v0 - v) as nat > t.negativeDelta
    ensures v == v0 ==> (r & DeltaBits) == 0
  {
    var m := t.mask;
    var limits: bv8 :=
      if (m & LimitBits) != 0 then
        (if (m & UpperLimitExceeded) != 0 && v as nat > t.upperLimit then UpperLimitExceeded else 0)
        | (if (m & BelowLowerLimit) != 0 && v as nat <= t.lowerLimit then BelowLowerLimit else 0)
      else 0;
    var deltas: bv8 :=
      if (m & DeltaBits) != 0 then
        if v > v0 then
          var d := (v - v0) as nat;
          (if (m & ChangedByMoreThanDelta) != 0 && d > t.delta then ChangedByMoreThanDelta else 0)
          | (if (m & ChangedByMoreThanPositiveDelta) != 0 && d > t.positiveDelta
             then ChangedByMoreThanPositiveDelta else 0)
        else if v < v0 then
          var d := (v0 - v) as nat;
          (if (m & ChangedByMoreThanDelta) != 0 && d > t.delta then ChangedByMoreThanDelta else 0)
          | (if (m & ChangedByMoreThanNegativeDelta) != 0 && d > t.negativeDelta
             then ChangedByMoreThanNegativeDelta else 0)
        else 0
      else 0;
    limits | deltas
  }

  /** The logger acts on a hit m (with m0 the mask of the previous action)
      when a rate condition holds, or a limit condition holds that did not
      hold before. */
  predicate Actionable(m: bv8, m0: bv8)
  {
    m != 0 && ((m & DeltaBits) != 0 || ((m & !m0) & LimitBits) != 0)
  }

  /** With only the upper limit armed, a sample acts exactly when it is above
      the limit and the previous action did not already report the upper
      limit: a level that stays high acts once. */
  lemma OnlyUpperActsOnEdge(v: u16, v0: u16, m0: bv8, t: Trigger)
    requires t.mask == UpperLimitExceeded
    ensures Actionable(EvalTrigger(v, v0, t), m0) <==>
      v as nat > t.upperLimit && (m0 & UpperLimitExceeded) == 0
  {
    var r := EvalTrigger(v, v0, t);
    assert r == 0 || r == UpperLimitExceeded;
  }

  /** Rate conditions are not gated: with only delta armed, every sample
      that moved by more than delta from v0 acts, whatever m0 is. */
  lemma OnlyDeltaActsEveryTime(v: u16, v0: u16, m0: bv8, t: Trigger)
    requires t.mask == ChangedByMoreThanDelta
    ensures Actionable(EvalTrigger(v, v0, t), m0) <==> Dist(v, v0) > t.delta
  {
    var r := EvalTrigger(v, v0, t);
    assert r == 0 || r == ChangedByMoreThanDelta;
  }

  /** A hit made only of limit bits that were all already reported does not
      act. */
  lemma HeldLimitsDoNotAct(m: bv8, m0: bv8)
    requires (m & DeltaBits) == 0 && (m & LimitBits & !m0) == 0
    ensures !Actionable(m, m0)
  {
  }
}
