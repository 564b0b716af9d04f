/** Two-factor codes: the HOTP truncation on bits, validation with a replay guard, and runs of
    setup, confirmation, verification and removal. The keyed hash, with the base32 decoding of
    the secret, is a parameter. */
module Totp {
  import opened Strings
  import opened Wrappers

  // ---- Bits -------------------------------------------------------------------------

  function And(x: nat, y: nat): nat {
    if x == 0 then 0 else 2 * And(x / 2, y / 2) + if x % 2 == 1 && y % 2 == 1 then 1 else 0
  }

  function Or(x: nat, y: nat): nat
    decreases x + y
  {
    if x == 0 then y
    else if y == 0 then x
    else 2 * Or(x / 2, y / 2) + if x % 2 == 1 || y % 2 == 1 then 1 else 0
  }

  /** x shifted left by k bits, without a width. */
  function Raise(x: nat, k: nat): nat { if k == 0 then x else 2 * Raise(x, k - 1) }

  /** The uint32 shift: bits pushed past 32 are lost. */
  function Shl(x: nat, k: nat): nat { Raise(x, k) % 0x1_0000_0000 }

  /** The low k bits. */
  function Low(x: nat, k: nat): nat { if k == 0 then 0 else 2 * Low(x / 2, k - 1) + x % 2 }

  function Ones(k: nat): nat { if k == 0 then 0 else 2 * Ones(k - 1) + 1 }

  lemma {:induction false} AndOnes(x: nat, k: nat)
    ensures And(x, Ones(k)) == Low(x, k)
  {
    if k == 0 {
      if x != 0 { AndOnes(x / 2, 0); }
    } else if x == 0 {
      AndOnes(0, k - 1);
    } else {
      AndOnes(x / 2, k - 1);
    }
  }

  lemma Mod4(x: nat) ensures x % 4 == 2 * (x / 2 % 2) + x % 2 {}
  lemma Mod8(x: nat) ensures x % 8 == 2 * (x / 2 % 4) + x % 2 {}
  lemma Mod16(x: nat) ensures x % 16 == 2 * (x / 2 % 8) + x % 2 {}
  lemma Mod32(x: nat) ensures x % 32 == 2 * (x / 2 % 16) + x % 2 {}
  lemma Mod64(x: nat) ensures x % 64 == 2 * (x / 2 % 32) + x % 2 {}
  lemma Mod128(x: nat) ensures x % 128 == 2 * (x / 2 % 64) + x % 2 {}

  lemma LowOne(x: nat)
    ensures Low(x, 1) == x % 2
  {
    assert Low(x / 2, 0) == 0;
  }

  lemma LowFour(x: nat)
    ensures Low(x, 4) == x % 16
  {
    var h, q := x / 2, x / 2 / 2;
    LowOne(q / 2);
    Mod4(q);
    assert Low(q, 2) == q % 4;
    Mod8(h);
    assert Low(h, 3) == h % 8;
    Mod16(x);
  }

  lemma LowSeven(x: nat)
    ensures Low(x, 7) == x % 128
  {
    var h, q := x / 2, x / 2 / 2;
    LowFour(q / 2);
    Mod32(q);
    assert Low(q, 5) == q % 32;
    Mod64(h);
    assert Low(h, 6) == h % 64;
    Mod128(x);
  }

  lemma {:induction false} RaiseTwice(x: nat, j: nat, k: nat)
    ensures Raise(Raise(x, j), k) == Raise(x, j + k)
  {
    if k > 0 { RaiseTwice(x, j, k - 1); }
  }

  lemma RaiseByte(x: nat)
    ensures Raise(x, 8) == 256 * x
  {
    assert Raise(x, 1) == 2 * x;
    assert Raise(x, 2) == 4 * x;
    assert Raise(x, 3) == 8 * x;
    assert Raise(x, 4) == 16 * x;
    assert Raise(x, 5) == 32 * x;
    assert Raise(x, 6) == 64 * x;
    assert Raise(x, 7) == 128 * x;
  }

  lemma RaiseBytes(x: nat)
    ensures Raise(x, 16) == 0x1_0000 * x && Raise(x, 24) == 0x100_0000 * x
  {
    RaiseByte(x);
    RaiseByte(256 * x);
    RaiseByte(0x1_0000 * x);
    RaiseTwice(x, 8, 8);
    RaiseTwice(x, 16, 8);
  }

  /** Where the low bits of one operand are clear and the other fits in them, or is addition. */
  lemma {:induction false} OrDisjoint(a: nat, b: nat, k: nat)
    requires b < Raise(1, k)
    ensures Or(Raise(a, k), b) == Raise(a, k) + b
  {
    if k > 0 {
      OrDisjoint(a, b / 2, k - 1);
      assert Raise(a, k) / 2 == Raise(a, k - 1);
    }
  }

  lemma {:induction false} OrRaised(x: nat, y: nat, k: nat)
    ensures Or(Raise(x, k), Raise(y, k)) == Raise(Or(x, y), k)
  {
    if k > 0 {
      OrRaised(x, y, k - 1);
      OrDouble(Raise(x, k - 1), Raise(y, k - 1));
    }
  }

  lemma OrDouble(x: nat, y: nat)
    ensures Or(2 * x, 2 * y) == 2 * Or(x, y)
  {
  }

  // ---- HOTP -------------------------------------------------------------------------

  type Byte = b: nat | b < 256
  type Mac = m: seq<Byte> | |m| == 20 witness [0, 0, 0, 0, 0, 0, 0, 0, 0, 0, 0, 0, 0, 0, 0, 0, 0, 0, 0, 0]
  type Hmac = (string, seq<Byte>) -> Option<Mac>

  function Offset(sum: Mac): nat { And(sum[19], 0x0F) }

  lemma OffsetInBounds(sum: Mac)
    ensures Offset(sum) == sum[19] % 16 && Offset(sum) + 3 < |sum|
  {
    assert Ones(2) == 3 && Ones(4) == 0x0F;
    AndOnes(sum[19], 4);
    LowFour(sum[19]);
  }

  function Truncate(sum: Mac): nat {
    OffsetInBounds(sum);
    var o := Offset(sum);
    Or(Or(Or(Shl(And(sum[o], 0x7F), 24), Shl(sum[o + 1], 16)), Shl(sum[o + 2], 8)), sum[o + 3])
  }

  lemma OrLow(x: nat, b: nat)
    requires b < 256
    ensures Or(Raise(x, 8), b) == 256 * x + b
  {
    RaiseByte(1);
    RaiseByte(x);
    OrDisjoint(x, b, 8);
  }

  /** One more byte below x, the whole shifted by k. */
  lemma OrNext(x: nat, b: nat, k: nat)
    requires b < 256
    ensures Or(Raise(x, 8 + k), Raise(b, k)) == Raise(256 * x + b, k)
  {
    RaiseTwice(x, 8, k);
    OrRaised(Raise(x, 8), b, k);
    OrLow(x, b);
  }

  lemma SmallShift(x: nat, k: nat)
    requires Raise(x, k) < 0x1_0000_0000
    ensures Shl(x, k) == Raise(x, k)
  {
  }

  lemma {:induction false} NoOverflow(a: nat, b: nat, c: nat)
    requires a < 128 && b < 256 && c < 256
    ensures Shl(a, 24) == Raise(a, 24) && Shl(b, 16) == Raise(b, 16) && Shl(c, 8) == Raise(c, 8)
  {
    RaiseBytes(a);
    SmallShift(a, 24);
    RaiseBytes(b);
    SmallShift(b, 16);
    RaiseByte(c);
    SmallShift(c, 8);
  }

  lemma OrBytes(a: nat, b: nat, c: nat, d: nat)
    requires a < 128 && b < 256 && c < 256 && d < 256
    ensures Or(Or(Or(Shl(a, 24), Shl(b, 16)), Shl(c, 8)), d) == 256 * (256 * (256 * a + b) + c) + d
  {
    NoOverflow(a, b, c);
    OrNext(a, b, 16);
    OrNext(256 * a + b, c, 8);
    OrLow(256 * (256 * a + b) + c, d);
  }

  /** The masks of the code are remainders. */
  lemma {:induction false} Masked(x: nat)
    ensures And(x, 0x7F) == x % 128
  {
    assert Ones(3) == 7 && Ones(5) == 31 && Ones(7) == 0x7F;
    AndOnes(x, 7);
    LowSeven(x);
  }

  lemma {:induction false} TruncateBytes(sum: Mac, o: nat)
    requires o == Offset(sum) && o + 3 < |sum|
    ensures Truncate(sum) ==
            256 * (256 * (256 * (sum[o] % 128) + sum[o + 1] as int) + sum[o + 2] as int) + sum[o + 3] as int
  {
    Masked(sum[o]);
    OrBytes(sum[o] % 128, sum[o + 1], sum[o + 2], sum[o + 3]);
  }

  /** Section 5.3 of RFC 4226: the truncated value is the 31-bit big-endian number at the offset. */
  lemma {:induction false} TruncateValue(sum: Mac, o: nat)
    requires o == sum[19] % 16
    ensures o + 3 < |sum|
    ensures Truncate(sum) == BytesValue([sum[o] % 128, sum[o + 1], sum[o + 2], sum[o + 3]])
    ensures Truncate(sum) < 0x8000_0000
  {
    OffsetInBounds(sum);
    TruncateBytes(sum, o);
    FourBytes(sum[o] % 128, sum[o + 1], sum[o + 2], sum[o + 3]);
  }

  lemma FourBytes(a: Byte, b: Byte, c: Byte, d: Byte)
    ensures BytesValue([a, b, c, d]) == 256 * (256 * (256 * a as int + b as int) + c as int) + d as int
  {
    assert [a, b, c, d][..3] == [a, b, c] && [a, b, c][..2] == [a, b] && [a, b][..1] == [a] && [a][..0] == [];
    assert BytesValue([a]) == a as int;
    assert BytesValue([a, b]) == 256 * a as int + b as int;
    assert BytesValue([a, b, c]) == 256 * (256 * a as int + b as int) + c as int;
  }

  /** The counter as n big-endian bytes (PutUint64 for n == 8). */
  function CounterBytes(step: nat, n: nat): seq<Byte> {
    if n == 0 then [] else CounterBytes(step / 256, n - 1) + [step % 256]
  }

  function BytesValue(bytes: seq<Byte>): nat {
    if bytes == [] then 0 else 256 * BytesValue(bytes[..|bytes| - 1]) + bytes[|bytes| - 1] as int
  }

  predicate FitsBytes(x: nat, n: nat) { if n == 0 then x == 0 else FitsBytes(x / 256, n - 1) }

  predicate FitsDigits(x: nat, n: nat) { if n == 0 then x == 0 else FitsDigits(x / 10, n - 1) }

  lemma {:induction false} CounterValue(step: nat, n: nat)
    requires FitsBytes(step, n)
    ensures BytesValue(CounterBytes(step, n)) == step
  {
    if n > 0 {
      CounterValue(step / 256, n - 1);
      assert CounterBytes(step, n)[..|CounterBytes(step, n)| - 1] == CounterBytes(step / 256, n - 1);
    }
  }

  /** fmt.Sprintf("%06d", n) for n below a million, with n == 6. */
  function Padded(n: nat, width: nat): (s: string)
    ensures |s| == width && forall c :: c in s ==> IsDigit(c)
  {
    if width == 0 then "" else Padded(n / 10, width - 1) + [DigitChar(n % 10)]
  }

  lemma {:induction false} PaddedValue(n: nat, width: nat)
    requires FitsDigits(n, width)
    ensures DigitsValue(Padded(n, width)) == n
  {
    if width > 0 {
      PaddedValue(n / 10, width - 1);
      assert Padded(n, width)[..width - 1] == Padded(n / 10, width - 1);
    }
  }

  lemma SixDigitsFit(n: nat)
    requires n < 1_000_000
    ensures FitsDigits(n, 6)
  {
    var a, b, c := n / 10, n / 10 / 10, n / 10 / 10 / 10;
    var d, e := c / 10, c / 10 / 10;
    assert FitsDigits(e, 1);
    assert FitsDigits(d, 2);
    assert FitsDigits(c, 3);
    assert FitsDigits(b, 4);
    assert FitsDigits(a, 5);
  }

  function CodeAt(h: Hmac, secret: string, step: nat): Option<string> {
    match h(secret, CounterBytes(step, 8))
    case None => None
    case Some(sum) => Some(Padded(Truncate(sum) % 1_000_000, 6))
  }

  /** The six characters are the decimal value of the truncation, so comparing texts compares codes. */
  lemma CodeValue(h: Hmac, secret: string, step: nat, sum: Mac)
    requires h(secret, CounterBytes(step, 8)) == Some(sum)
    ensures CodeAt(h, secret, step).Some? && |CodeAt(h, secret, step).value| == 6
    ensures DigitsValue(CodeAt(h, secret, step).value) == Truncate(sum) % 1_000_000
  {
    SixDigitsFit(Truncate(sum) % 1_000_000);
    PaddedValue(Truncate(sum) % 1_000_000, 6);
  }

  // ---- Validation -------------------------------------------------------------------

  function StepAt(unix: nat): nat { unix / 30 }

  predicate Fresh(step: int, last: int) { step > last && step >= 0 }

  /** Whether `step` may be accepted: not used yet, and its code is the one given. */
  predicate Acceptable(h: Hmac, secret: string, code: string, step: int, last: int) {
    Fresh(step, last) && CodeAt(h, secret, step) == Some(TrimSpace(code))
  }

  /** Steps already used are skipped; an undecodable secret ends the search. */
  function FirstAcceptable(h: Hmac, secret: string, code: string, steps: seq<int>, last: int): (r: Option<int>)
    ensures r.Some? ==> r.value in steps && Acceptable(h, secret, code, r.value, last)
  {
    if steps == [] then None
    else if !Fresh(steps[0], last) then FirstAcceptable(h, secret, code, steps[1..], last)
    else if CodeAt(h, secret, steps[0]).None? then None
    else if Acceptable(h, secret, code, steps[0], last) then Some(steps[0])
    else FirstAcceptable(h, secret, code, steps[1..], last)
  }

  function Candidates(now: nat): seq<int> { [StepAt(now) as int, StepAt(now) as int - 1] }

  function Validated(h: Hmac, secret: string, code: string, now: nat, last: nat): (r: Option<int>)
    ensures r.Some? ==> Acceptable(h, secret, code, r.value, last) && StepAt(now) - 1 <= r.value <= StepAt(now)
  {
    if |TrimSpace(code)| != 6 then None else FirstAcceptable(h, secret, code, Candidates(now), last)
  }

  /** ValidateTOTP: the current step, then the one before. */
  method ValidateTOTP(h: Hmac, secret: string, code: string, now: nat, last: nat) returns (step: Option<int>)
    ensures step == Validated(h, secret, code, now, last)
  {
    var trimmed := TrimSpace(code);
    if |trimmed| != 6 { return None; }
    var current: int := StepAt(now);
    var steps := [current, current - 1];
    for n := 0 to |steps|
      invariant Validated(h, secret, code, now, last) == FirstAcceptable(h, secret, code, steps[n..], last)
    {
      assert steps[n..][1..] == steps[n + 1..];
      if steps[n] <= last { continue; }
      var expected := CodeAt(h, secret, steps[n]);
      if expected.None? { return None; }
      if trimmed == expected.value { return Some(steps[n]); }
    }
    return None;
  }

  /** The search says yes whenever the secret decodes and either step is acceptable. */
  lemma ValidatedExactly(h: Hmac, secret: string, code: string, now: nat, last: nat)
    requires |TrimSpace(code)| == 6
    requires forall step: nat :: CodeAt(h, secret, step).Some?
    ensures var c: int := StepAt(now);
            Validated(h, secret, code, now, last) ==
            if Acceptable(h, secret, code, c, last) then Some(c)
            else if Acceptable(h, secret, code, c - 1, last) then Some(c - 1) else None
  {
    TwoSteps(h, secret, code, StepAt(now), last);
  }

  lemma TwoSteps(h: Hmac, secret: string, code: string, c: int, last: nat)
    requires forall step: nat :: CodeAt(h, secret, step).Some?
    ensures FirstAcceptable(h, secret, code, [c, c - 1], last) ==
            if Acceptable(h, secret, code, c, last) then Some(c)
            else if Acceptable(h, secret, code, c - 1, last) then Some(c - 1) else None
  {
    OneStep(h, secret, code, c - 1, [], last);
    OneStep(h, secret, code, c, [c - 1], last);
    assert [c - 1] + [] == [c - 1] && [c] + [c - 1] == [c, c - 1];
  }

  lemma OneStep(h: Hmac, secret: string, code: string, s: int, rest: seq<int>, last: nat)
    requires forall step: nat :: CodeAt(h, secret, step).Some?
    ensures FirstAcceptable(h, secret, code, [s] + rest, last) ==
            if Acceptable(h, secret, code, s, last) then Some(s)
            else FirstAcceptable(h, secret, code, rest, last)
  {
    assert ([s] + rest)[1..] == rest;
  }

  // ---- A user's second factor over time ---------------------------------------------

  datatype User = User(secret: Option<string>, enabled: bool, lastStep: nat)

  datatype Op =
    | Setup(secret: string)
    | Confirm(code: string, now: nat)
    | Verify(code: string, now: nat, recorded: bool)
    | Disable(passwordOk: bool)

  /** The step an operation accepts, if any. */
  function Accepts(h: Hmac, u: User, op: Op): (r: Option<int>)
    ensures r.Some? ==> r.value > u.lastStep
  {
    match op
    case Confirm(code, now) => if u.secret.None? then None else Validated(h, u.secret.value, code, now, u.lastStep)
    case Verify(code, now, _) =>
      if !u.enabled || u.secret.None? then None else Validated(h, u.secret.value, code, now, u.lastStep)
    case _ => None
  }

  function Apply(h: Hmac, u: User, op: Op): User {
    match op
    case Setup(secret) => User(Some(secret), false, 0)
    case Confirm(_, _) =>
      if Accepts(h, u, op).Some? then u.(enabled := true, lastStep := Accepts(h, u, op).value) else u
    case Verify(_, _, recorded) =>
      if Accepts(h, u, op).Some? && recorded then u.(lastStep := Accepts(h, u, op).value) else u
    case Disable(passwordOk) => if passwordOk then User(None, false, 0) else u
  }

  class Account {
    var user: User

    constructor ()
      ensures user == User(None, false, 0)
    {
      user := User(None, false, 0);
    }

    method SetupTotp(secret: string)
      modifies this
      ensures forall h: Hmac :: user == Apply(h, old(user), Setup(secret))
    {
      user := User(Some(secret), false, 0);
    }

    method ConfirmTotp(h: Hmac, code: string, now: nat) returns (ok: bool)
      modifies this
      ensures user == Apply(h, old(user), Confirm(code, now))
      ensures ok <==> Accepts(h, old(user), Confirm(code, now)).Some?
    {
      if user.secret.None? { return false; }
      var step := ValidateTOTP(h, user.secret.value, code, now, user.lastStep);
      if step.None? { return false; }
      user := user.(enabled := true, lastStep := step.value);
      return true;
    }

    /** The write of the accepted step may fail; its error is ignored. */
    method VerifyTotp(h: Hmac, code: string, now: nat, recorded: bool) returns (ok: bool)
      modifies this
      ensures user == Apply(h, old(user), Verify(code, now, recorded))
      ensures ok <==> Accepts(h, old(user), Verify(code, now, recorded)).Some?
    {
      if !user.enabled || user.secret.None? { return false; }
      var step := ValidateTOTP(h, user.secret.value, code, now, user.lastStep);
      if step.None? { return false; }
      if recorded { user := user.(lastStep := step.value); }
      return true;
    }

    method DisableTotp(passwordOk: bool) returns (ok: bool)
      modifies this
      ensures forall h: Hmac :: user == Apply(h, old(user), Disable(passwordOk))
      ensures ok == passwordOk
    {
      if !passwordOk { return false; }
      user := User(None, false, 0);
      return true;
    }
  }

  function After(h: Hmac, u: User, ops: seq<Op>): User {
    if ops == [] then u else Apply(h, After(h, u, ops[..|ops| - 1]), ops[|ops| - 1])
  }

  predicate KeepsSecret(op: Op) {
    !op.Setup? && op != Disable(true) && (op.Verify? ==> op.recorded)
  }

  lemma {:induction false} LastStepGrows(h: Hmac, u: User, ops: seq<Op>)
    requires forall op :: op in ops ==> KeepsSecret(op)
    ensures After(h, u, ops).lastStep >= u.lastStep && After(h, u, ops).secret == u.secret
  {
    if ops != [] {
      var init := ops[..|ops| - 1];
      assert forall op :: op in init ==> op in ops;
      assert ops[|ops| - 1] in ops;
      LastStepGrows(h, u, init);
    }
  }

  /** An accepted step is the current one or the one before, unused, and its code was given. */
  lemma AcceptedStepIsCurrent(h: Hmac, u: User, op: Op, step: int)
    ensures Accepts(h, u, op) == Some(step) ==>
              && u.secret.Some? && step > u.lastStep && StepAt(op.now) - 1 <= step <= StepAt(op.now)
              && CodeAt(h, u.secret.value, step) == Some(TrimSpace(op.code))
  {
  }

  /** Between secret changes accepted steps strictly increase (section 5.2 of RFC 6238). */
  lemma AcceptedStepsIncrease(h: Hmac, u: User, first: Op, between: seq<Op>, second: Op, step: int, later: int)
    requires KeepsSecret(first) && forall op :: op in between ==> KeepsSecret(op)
    ensures Accepts(h, u, first) == Some(step)
            && Accepts(h, After(h, Apply(h, u, first), between), second) == Some(later)
            ==> step < later
  {
    LastStepGrows(h, Apply(h, u, first), between);
  }

  /** When the accepted step is not recorded, the same code is accepted again at once; with the
      write it never is. */
  lemma ReplayExactly(h: Hmac, u: User, code: string, now: nat, recorded: bool, step: int)
    ensures Accepts(h, u, Verify(code, now, recorded)) == Some(step) ==>
              (Accepts(h, Apply(h, u, Verify(code, now, recorded)), Verify(code, now, true)) == Some(step)
               <==> !recorded)
  {
  }

  // ---- The whole check, without the functions above -----------------------------------

  /** The six digits for a step: the keyed hash of the step as eight big-endian bytes, the 31-bit
      number at the offset its last byte gives, its last six decimal digits. */
  ghost predicate IsCodeFor(h: Hmac, secret: string, step: nat, text: string) {
    exists message: seq<Byte>, sum: Mac ::
      && |message| == 8 && BytesValue(message) == step && h(secret, message) == Some(sum)
      && |text| == 6 && (forall c :: c in text ==> IsDigit(c))
      && DigitsValue(text) == BytesValue(Selected(sum)) % 1_000_000
  }

  /** The four bytes at the offset, the first without its sign bit. */
  function Selected(sum: Mac): seq<Byte> {
    var o := sum[19] % 16;
    [sum[o] % 128, sum[o + 1], sum[o + 2], sum[o + 3]]
  }

  /** Eight bytes have one value each way. */
  lemma {:induction false} BytesUnique(a: seq<Byte>, b: seq<Byte>)
    requires |a| == |b| && BytesValue(a) == BytesValue(b)
    ensures a == b
  {
    if a != [] {
      var n := |a| - 1;
      assert BytesValue(a) == 256 * BytesValue(a[..n]) + a[n] as int;
      assert BytesValue(b) == 256 * BytesValue(b[..n]) + b[n] as int;
      BytesUnique(a[..n], b[..n]);
      assert a == a[..n] + [a[n]] && b == b[..n] + [b[n]];
    }
  }

  lemma {:induction false} DigitsUnique(a: string, b: string)
    requires |a| == |b| && (forall c :: c in a ==> IsDigit(c)) && forall c :: c in b ==> IsDigit(c)
    requires DigitsValue(a) == DigitsValue(b)
    ensures a == b
  {
    if a != "" {
      var n := |a| - 1;
      assert forall c :: c in a[..n] ==> c in a;
      assert forall c :: c in b[..n] ==> c in b;
      assert DigitsValue(a) == DigitsValue(a[..n]) * 10 + DigitValue(a[n]);
      assert DigitsValue(b) == DigitsValue(b[..n]) * 10 + DigitValue(b[n]);
      DigitsUnique(a[..n], b[..n]);
      assert a == a[..n] + [a[n]] && b == b[..n] + [b[n]];
    }
  }

  lemma {:induction false} CounterLength(step: nat, n: nat)
    ensures |CounterBytes(step, n)| == n
  {
    if n > 0 { CounterLength(step / 256, n - 1); }
  }

  /** The steps of every 64-bit instant fit the counter. */
  lemma {:induction false} Fits64(x: nat)
    requires x < 0x1_0000_0000_0000_0000
    ensures FitsBytes(x, 8)
  {
    var a, b, c := x / 256, x / 256 / 256, x / 256 / 256 / 256;
    var d, e, f := c / 256, c / 256 / 256, c / 256 / 256 / 256;
    var g := f / 256;
    assert g < 256;
    assert FitsBytes(g, 1);
    assert FitsBytes(f, 2);
    assert FitsBytes(e, 3);
    assert FitsBytes(d, 4);
    assert FitsBytes(c, 5);
    assert FitsBytes(b, 6);
    assert FitsBytes(a, 7);
  }

  /** The code the program computes for a step of 64 bits is the one text that is right for it. */
  lemma CodeExactly(h: Hmac, secret: string, step: nat, text: string)
    requires step < 0x1_0000_0000_0000_0000
    ensures CodeAt(h, secret, step) == Some(text) <==> IsCodeFor(h, secret, step, text)
  {
    Fits64(step);
    CounterLength(step, 8);
    CounterValue(step, 8);
    if CodeAt(h, secret, step) == Some(text) {
      var sum := h(secret, CounterBytes(step, 8)).value;
      CodeValue(h, secret, step, sum);
      TruncateValue(sum, sum[19] % 16);
    }
    if IsCodeFor(h, secret, step, text) {
      var message: seq<Byte>, sum: Mac :|
        && |message| == 8 && BytesValue(message) == step && h(secret, message) == Some(sum)
        && |text| == 6 && (forall c :: c in text ==> IsDigit(c))
        && DigitsValue(text) == BytesValue(Selected(sum)) % 1_000_000;
      BytesUnique(message, CounterBytes(step, 8));
      CodeValue(h, secret, step, sum);
      TruncateValue(sum, sum[19] % 16);
      DigitsUnique(text, CodeAt(h, secret, step).value);
    }
  }

  /** The code is unused and right for the step. */
  ghost predicate RightFor(h: Hmac, secret: string, code: string, last: nat, step: nat) {
    step > last && IsCodeFor(h, secret, step, TrimSpace(code))
  }

  /** A code is accepted exactly when, trimmed, it is the right one for the 30-second step of now or
      else for the one before, and that step comes after the last one used; and that step is it. */
  lemma CheckExactly(h: Hmac, secret: string, code: string, now: nat, last: nat, step: nat)
    requires now < 0x1_0000_0000_0000_0000
    requires forall s: nat :: CodeAt(h, secret, s).Some?
    ensures Validated(h, secret, code, now, last) == Some(step)
            <==> RightFor(h, secret, code, last, step)
                 && (step == now / 30 || (step == now / 30 - 1 && !RightFor(h, secret, code, last, now / 30)))
  {
    CheckedSteps(h, secret, code, now, last);
    AcceptableExactly(h, secret, code, now / 30, last);
    if now >= 30 { AcceptableExactly(h, secret, code, now / 30 - 1, last); }
  }

  lemma CheckedSteps(h: Hmac, secret: string, code: string, now: nat, last: nat)
    requires forall s: nat :: CodeAt(h, secret, s).Some?
    ensures var c: int := now / 30;
            Validated(h, secret, code, now, last) ==
            if Acceptable(h, secret, code, c, last) then Some(c)
            else if Acceptable(h, secret, code, c - 1, last) then Some(c - 1) else None
  {
    if |TrimSpace(code)| == 6 {
      ValidatedExactly(h, secret, code, now, last);
    } else {
      NotSix(h, secret, code, now / 30, last);
      NotSix(h, secret, code, now / 30 - 1, last);
    }
  }

  lemma NotSix(h: Hmac, secret: string, code: string, step: int, last: nat)
    requires |TrimSpace(code)| != 6
    ensures !Acceptable(h, secret, code, step, last)
  {
  }

  lemma AcceptableExactly(h: Hmac, secret: string, code: string, step: nat, last: nat)
    requires step < 0x1_0000_0000_0000_0000
    ensures Acceptable(h, secret, code, step, last) <==> RightFor(h, secret, code, last, step)
  {
    CodeExactly(h, secret, step, TrimSpace(code));
  }

  // ---- What each operation does --------------------------------------------------------

  /** A new secret waits for its confirmation; an accepted confirmation enables it, an accepted
      verification leaves it enabled, and both use up their step; the password removes everything. */
  lemma OperationEffects(h: Hmac, u: User, op: Op)
    ensures var v := Apply(h, u, op);
            match op
            case Setup(secret) => v.secret == Some(secret) && !v.enabled && v.lastStep == 0
            case Confirm(_, _) =>
              (match Accepts(h, u, op)
               case None => v == u
               case Some(step) => v.secret == u.secret && v.enabled && v.lastStep as int == step)
            case Verify(_, _, recorded) =>
              (match Accepts(h, u, op)
               case None => v == u
               case Some(step) =>
                 v.secret == u.secret && v.enabled && v.lastStep as int == if recorded then step else u.lastStep)
            case Disable(passwordOk) =>
              if passwordOk then v.secret == None && !v.enabled && v.lastStep == 0 else v == u
  {
  }

  /** Once a confirmation was accepted, a code that is right for a later step is accepted. */
  lemma ConfirmedThenVerified(h: Hmac, u: User, code: string, now: nat, next: string, later: nat)
    requires u.secret.Some? && (forall s: nat :: CodeAt(h, u.secret.value, s).Some?)
    requires Accepts(h, u, Confirm(code, now)).Some? && later / 30 > now / 30
    requires later < 0x1_0000_0000_0000_0000
    requires IsCodeFor(h, u.secret.value, later / 30, TrimSpace(next))
    ensures Accepts(h, Apply(h, u, Confirm(code, now)), Verify(next, later, true)) == Some(later / 30)
  {
    var v := Apply(h, u, Confirm(code, now));
    AcceptedStepIsCurrent(h, u, Confirm(code, now), Accepts(h, u, Confirm(code, now)).value);
    CheckExactly(h, u.secret.value, next, later, v.lastStep, later / 30);
  }

  /** No code verifies between the setup of a secret and its confirmation. */
  lemma {:induction false} NothingBeforeConfirm(h: Hmac, u: User, ops: seq<Op>, verify: Op)
    requires !u.enabled && verify.Verify?
    requires forall op :: op in ops ==> !op.Confirm?
    ensures Accepts(h, After(h, u, ops), verify) == None
  {
    StaysDisabled(h, u, ops);
  }

  lemma {:induction false} StaysDisabled(h: Hmac, u: User, ops: seq<Op>)
    requires !u.enabled && forall op :: op in ops ==> !op.Confirm?
    ensures !After(h, u, ops).enabled
  {
    if ops != [] {
      assert forall op :: op in ops[..|ops| - 1] ==> op in ops;
      assert ops[|ops| - 1] in ops;
      StaysDisabled(h, u, ops[..|ops| - 1]);
    }
  }
}
