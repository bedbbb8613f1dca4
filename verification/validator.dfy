/**
 The accumulating validator of `internal/utils/validator.go`.

 A validator is the list of failure messages recorded so far. Every helper
 reduces to `Check`, which records its message exactly when its condition
 fails, so a validation pass never stops early: after any sequence of
 checks the list holds the failed messages in call order. `AllValid` is the
 one place where the list becomes an error.
 */
module Validators {
  import opened Wrappers
  import opened Dates
  import opened Ints

  datatype Validator = Validator(errors: seq<string>)

  /** The error `AllValid` returns: every recorded message, in order. */
  datatype CombinedError = CombinedError(messages: seq<string>)

  /** `after` is `before` with `msg` recorded exactly when `failed` holds. */
  predicate Records(before: Validator, after: Validator, failed: bool, msg: string) {
    if failed then after.errors == before.errors + [msg] else after == before
  }

  function NewValidator(): (v: Validator)
    ensures v.errors == []
  {
    Validator([])
  }

  /** Records `msg` when `c` is false; otherwise changes nothing. */
  function Check(v: Validator, c: bool, msg: string): (r: Validator)
    ensures Records(v, r, !c, msg)
    ensures |r.errors| == |v.errors| + (if c then 0 else 1)
  {
    if c then v else Validator(v.errors + [msg])
  }

  // ---------------------------------------------------------------------
  // Presence

  /**
   Fails when the field is nil. The field is an `any`, and only the untyped
   nil interface is `None`: a typed nil pointer in an `any` is not nil.
   */
  function IsPresent<T>(v: Validator, field: Option<T>, msg: string): (r: Validator)
    ensures Records(v, r, field.None?, msg)
  {
    Check(v, field.Some?, msg)
  }

  /** Fails when the field is not nil. */
  function IsNotPresent<T>(v: Validator, field: Option<T>, msg: string): (r: Validator)
    ensures Records(v, r, field.Some?, msg)
  {
    Check(v, field.None?, msg)
  }

  /**
   The presence check for a pointer field that the doc comment describes: a
   pointer field arrives as `Some(p)`, and it fails when `p` is nil as well
   as on the nil interface.
   */
  function IsPresentPointer<T>(v: Validator, field: Option<Option<T>>, msg: string): (r: Validator)
    ensures Records(v, r, field.None? || field.value.None?, msg)
  {
    Check(v, field.Some? && field.value.Some?, msg)
  }

  /** A typed nil pointer passes `IsPresent` and fails `IsNotPresent`; the pointer check records it as missing. */
  lemma TypedNilCountsAsPresent<T>(v: Validator, msg: string)
    ensures var nilPointer: Option<Option<T>> := Some(None);
            && IsPresent(v, nilPointer, msg) == v
            && IsNotPresent(v, nilPointer, msg).errors == v.errors + [msg]
            && IsPresentPointer(v, nilPointer, msg).errors == v.errors + [msg]
  {
  }

  // ---------------------------------------------------------------------
  // String lengths. Go measures them as `uint32(len(field))`, which keeps
  // the length modulo 2^32.

  /** `uint32(len(s))`: the byte length of `s`, truncated to 32 bits. */
  function Len32(s: string): (n: uint32)
    ensures |s| < TwoTo32 ==> n == |s|
    ensures n == 0 <==> |s| % TwoTo32 == 0
  {
    |s| % TwoTo32
  }

  /** Fails when the (truncated) length differs from `size`. */
  function IsSize(v: Validator, field: string, size: uint32, msg: string): (r: Validator)
    ensures Records(v, r, Len32(field) != size, msg)
    ensures |field| < TwoTo32 ==> Records(v, r, |field| != size, msg)
  {
    Check(v, Len32(field) == size, msg)
  }

  /** As written: fails when the TRUNCATED length is 0, so also for a string of 2^32 bytes. */
  function IsNotEmpty(v: Validator, field: string, msg: string): (r: Validator)
    ensures Records(v, r, |field| % TwoTo32 == 0, msg)
    ensures |field| < TwoTo32 ==> Records(v, r, |field| == 0, msg)
  {
    Check(v, Len32(field) != 0, msg)
  }

  /** Fails when the (truncated) length is not 0. */
  function IsEmpty(v: Validator, field: string, msg: string): (r: Validator)
    ensures Records(v, r, |field| % TwoTo32 != 0, msg)
    ensures |field| < TwoTo32 ==> Records(v, r, |field| != 0, msg)
  {
    Check(v, Len32(field) == 0, msg)
  }

  /** Fails when the (truncated) length lies outside the inclusive range [min, max]. */
  function IsBetween(v: Validator, field: string, min: uint32, max: uint32, msg: string): (r: Validator)
    ensures Records(v, r, Len32(field) < min || max < Len32(field), msg)
    ensures |field| < TwoTo32 ==> Records(v, r, |field| < min || max < |field|, msg)
  {
    var size := Len32(field);
    Check(v, size >= min && size <= max, msg)
  }

  /** The non-emptiness check as evidently intended: fails exactly on the empty string. */
  function RequireNonEmpty(v: Validator, field: string, msg: string): (r: Validator)
    ensures Records(v, r, |field| == 0, msg)
  {
    Check(v, |field| != 0, msg)
  }

  /** `IsEmpty` and `IsNotEmpty` are exact complements: one of them records, never both. */
  lemma EmptyChecksComplement(v: Validator, field: string, msg: string)
    ensures |IsEmpty(v, field, msg).errors| + |IsNotEmpty(v, field, msg).errors| == 2 * |v.errors| + 1
  {
  }

  /** The truncation makes a 4 GiB string count as empty; the intended check accepts it. */
  lemma IsNotEmptyWrapsAtLen32(v: Validator, field: string, msg: string)
    requires |field| == TwoTo32
    ensures IsNotEmpty(v, field, msg).errors == v.errors + [msg]
    ensures RequireNonEmpty(v, field, msg) == v
  {
  }

  // ---------------------------------------------------------------------
  // Integers. The Go helpers switch on the dynamic kind of `field`; the
  // integer kinds are modelled (a 64-bit platform, so `int` and `uint` are
  // 64 bits wide), each value within its kind's range.

  datatype GoInt = GoInt(kind: IntKind, value: int)

  /** A Go integer: a kind and a value that kind can hold. */
  type Number = n: GoInt | n.kind.Min() <= n.value <= n.kind.Max() witness GoInt(Int, 0)

  /** Fails unless `field` is strictly greater than `min` (same kind, or Go panics). */
  function IsGreaterThan(v: Validator, field: Number, min: Number, msg: string): (r: Validator)
    requires field.kind == min.kind
    ensures Records(v, r, field.value <= min.value, msg)
  {
    Check(v, field.value > min.value, msg)
  }

  /** Fails unless `field` is strictly less than `max` (same kind, or Go panics). */
  function IsLessThan(v: Validator, field: Number, max: Number, msg: string): (r: Validator)
    requires field.kind == max.kind
    ensures Records(v, r, field.value >= max.value, msg)
  {
    Check(v, field.value < max.value, msg)
  }

  /** Fails unless `min <= field <= max`, both ends included. */
  function IsBetweenNumbers(v: Validator, field: Number, min: Number, max: Number, msg: string): (r: Validator)
    requires field.kind == min.kind == max.kind
    ensures Records(v, r, field.value < min.value || max.value < field.value, msg)
  {
    Check(v, field.value <= max.value && field.value >= min.value, msg)
  }

  /** Fails when a signed field is 0 or more; unsigned kinds fall through the switch and record nothing. */
  function IsNegative(v: Validator, field: Number, msg: string): (r: Validator)
    ensures Records(v, r, field.kind.Signed() && 0 <= field.value, msg)
  {
    match field.kind
    case Int | Int8 | Int16 | Int32 | Int64 => Check(v, field.value < 0, msg)
    case _ => v
  }

  /** Fails when a signed field is 0 or less; unsigned kinds fall through the switch and record nothing. */
  function IsPositive(v: Validator, field: Number, msg: string): (r: Validator)
    ensures Records(v, r, field.kind.Signed() && field.value <= 0, msg)
  {
    match field.kind
    case Int | Int8 | Int16 | Int32 | Int64 => Check(v, field.value > 0, msg)
    case _ => v
  }

  const MaxPort: int := 65535

  /** Fails when the field lies outside 0..65535; int8, int16 and uint8 are not in the switch and record nothing. */
  function IsPort(v: Validator, field: Number, msg: string): (r: Validator)
    ensures field.kind in {Int8, Int16, Uint8} ==> r == v
    ensures field.kind !in {Int8, Int16, Uint8} ==> Records(v, r, field.value < 0 || MaxPort < field.value, msg)
  {
    match field.kind
    case Int8 | Int16 | Uint8 => v
    case _ => IsBetweenNumbers(v, field, GoInt(field.kind, 0), GoInt(field.kind, MaxPort), msg)
  }

  // ---------------------------------------------------------------------
  // Dates (the `time.Time` and gostradamus `DateTime` branches agree)

  /** Fails when the date is Go's zero time. */
  function IsDateDefined(v: Validator, field: DateTime, msg: string): (r: Validator)
    ensures Records(v, r, field.nanos == 0, msg)
  {
    Check(v, !IsZero(field), msg)
  }

  /** Fails unless `field` is strictly before `min`. */
  function IsDateBefore(v: Validator, field: DateTime, min: DateTime, msg: string): (r: Validator)
    ensures Records(v, r, min.nanos <= field.nanos, msg)
  {
    Check(v, Before(field, min), msg)
  }

  /** Fails unless `field` is strictly after `max`. */
  function IsDateAfter(v: Validator, field: DateTime, max: DateTime, msg: string): (r: Validator)
    ensures Records(v, r, field.nanos <= max.nanos, msg)
  {
    Check(v, After(field, max), msg)
  }

  /** Both date comparisons are strict: an equal date fails both. */
  lemma EqualDatesFailBothComparisons(v: Validator, d: DateTime, msg: string)
    ensures IsDateBefore(v, d, d, msg).errors == v.errors + [msg]
    ensures IsDateAfter(v, d, d, msg).errors == v.errors + [msg]
  {
  }

  // ---------------------------------------------------------------------
  // Reporting

  function HasErrors(v: Validator): (b: bool)
    ensures b <==> v.errors != []
  {
    |v.errors| != 0
  }

  /** The number of recorded messages; zero exactly when `HasErrors` is false. */
  function ErrorNumber(v: Validator): (n: nat)
    ensures n == |v.errors|
    ensures n == 0 <==> !HasErrors(v)
  {
    |v.errors|
  }

  /** The error slice `AllValid` builds: `make` leaves `n` nil slots, then one error is appended per message. */
  function ErrorSlice(messages: seq<string>): seq<Option<string>> {
    Nils(|messages|) + Wrapped(messages)
  }

  function Nils(n: nat): (s: seq<Option<string>>)
    ensures |s| == n
  {
    if n == 0 then [] else [None] + Nils(n - 1)
  }

  function Wrapped(messages: seq<string>): (s: seq<Option<string>>)
    ensures |s| == |messages|
  {
    if |messages| == 0 then [] else [Some(messages[0])] + Wrapped(messages[1..])
  }

  /** The non-nil errors of a slice, in order. */
  function NonNil(errs: seq<Option<string>>): seq<string> {
    if |errs| == 0 then []
    else (if errs[0].Some? then [errs[0].value] else []) + NonNil(errs[1..])
  }

  /** `errors.Combine`: nil errors are skipped, and nil comes back when none is left. */
  function Combine(errs: seq<Option<string>>): Option<CombinedError> {
    var messages := NonNil(errs);
    if |messages| == 0 then None else Some(CombinedError(messages))
  }

  function AllValid(v: Validator): (r: Option<CombinedError>)
    ensures r == None <==> v.errors == []
    ensures r.Some? ==> r.value.messages == v.errors
  {
    if |v.errors| == 0 then None
    else
      NonNilOfErrorSlice(v.errors);
      Combine(ErrorSlice(v.errors))
  }

  lemma {:induction false} NonNilConcat(a: seq<Option<string>>, b: seq<Option<string>>)
    ensures NonNil(a + b) == NonNil(a) + NonNil(b)
    decreases |a|
  {
    if |a| == 0 {
      assert a + b == b;
    } else {
      assert (a + b)[1..] == a[1..] + b;
      NonNilConcat(a[1..], b);
    }
  }

  lemma {:induction false} NonNilOfNils(n: nat)
    ensures NonNil(Nils(n)) == []
  {
    if n > 0 {
      NonNilOfNils(n - 1);
      assert Nils(n)[1..] == Nils(n - 1);
    }
  }

  lemma {:induction false} NonNilOfWrapped(messages: seq<string>)
    ensures NonNil(Wrapped(messages)) == messages
    decreases |messages|
  {
    if |messages| > 0 {
      NonNilOfWrapped(messages[1..]);
      assert Wrapped(messages)[1..] == Wrapped(messages[1..]);
    }
  }

  /** The nil slots left by `make` never reach the combined error. */
  lemma NonNilOfErrorSlice(messages: seq<string>)
    ensures NonNil(ErrorSlice(messages)) == messages
  {
    NonNilConcat(Nils(|messages|), Wrapped(messages));
    NonNilOfNils(|messages|);
    NonNilOfWrapped(messages);
  }

  // ---------------------------------------------------------------------
  // A validation pass as a whole

  /** One declared check: its condition and the message it records on failure. */
  datatype Condition = Condition(holds: bool, message: string)

  /** Runs the checks one after the other, as a Validate method does. */
  function RunChecks(v: Validator, checks: seq<Condition>): Validator
    decreases |checks|
  {
    if |checks| == 0 then v
    else RunChecks(Check(v, checks[0].holds, checks[0].message), checks[1..])
  }

  /** The messages of the failing checks, in declaration order. */
  function FailedMessages(checks: seq<Condition>): seq<string> {
    if |checks| == 0 then []
    else (if checks[0].holds then [] else [checks[0].message]) + FailedMessages(checks[1..])
  }

  /** No short circuit: a pass records exactly the failed messages, in call order. */
  lemma {:induction false} ChecksNeverShortCircuit(v: Validator, checks: seq<Condition>)
    ensures RunChecks(v, checks).errors == v.errors + FailedMessages(checks)
    decreases |checks|
  {
    if |checks| > 0 {
      ChecksNeverShortCircuit(Check(v, checks[0].holds, checks[0].message), checks[1..]);
    }
  }

  /** The reports of a fresh pass: the count is the number of failed checks, and errors exist iff it is positive. */
  lemma ReportsOfAPass(checks: seq<Condition>)
    ensures ErrorNumber(RunChecks(NewValidator(), checks)) == |FailedMessages(checks)|
    ensures HasErrors(RunChecks(NewValidator(), checks)) <==> ErrorNumber(RunChecks(NewValidator(), checks)) > 0
    ensures AllValid(RunChecks(NewValidator(), checks)) ==
            (if FailedMessages(checks) == [] then None else Some(CombinedError(FailedMessages(checks))))
  {
    ChecksNeverShortCircuit(NewValidator(), checks);
    assert RunChecks(NewValidator(), checks).errors == FailedMessages(checks);
  }

  /** Three checks of which the first and last fail: two errors, combined in check order. */
  lemma ThreeChecksTwoFailing()
    ensures var v := RunChecks(NewValidator(), [Condition(false, "a"), Condition(true, "b"), Condition(false, "c")]);
            HasErrors(v) && ErrorNumber(v) == 2 && AllValid(v) == Some(CombinedError(["a", "c"]))
  {
    var checks := [Condition(false, "a"), Condition(true, "b"), Condition(false, "c")];
    ReportsOfAPass(checks);
    assert FailedMessages(checks) == ["a", "c"];
  }
}
