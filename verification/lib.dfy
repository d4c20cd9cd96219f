/** `src/lib.rs`: the process id the daemon persists, and its text form.

    `Display` renders the id with `{:?}`, which for a `u32` is its decimal
    digits. `TryFrom<String>` is `str::parse::<u32>`: an optional leading
    `+`, then one or more ASCII digits whose value fits in 32 bits, with no
    surrounding whitespace. */
module Lib {
  import opened Outcomes
  import opened Text
  import opened Numbers

  datatype Pid = Pid(id: U32)

  const EmptyMessage: string := "cannot parse integer from empty string"
  const InvalidDigitMessage: string := "invalid digit found in string"
  const OverflowMessage: string := "number too large to fit in target type"

  /** The decimal digits of `n`, most significant first. */
  function Decimal(n: nat): (s: string)
    ensures |s| >= 1 && AllDigits(s)
    ensures n == 0 ==> s == "0"
    ensures n > 0 ==> s[0] != '0'
    decreases n
  {
    if n < 10 then [DigitChar(n)] else Decimal(n / 10) + [DigitChar(n % 10)]
  }

  /** Value of the digits `ds` appended, left to right, to the value `acc`. */
  function ValueFrom(acc: nat, ds: string): nat
    requires AllDigits(ds)
    decreases |ds|
  {
    if |ds| == 0 then acc else ValueFrom(acc * 10 + DigitValue(ds[0]), ds[1..])
  }

  /** The number a string of decimal digits denotes. */
  function Value(ds: string): nat
    requires AllDigits(ds)
  {
    ValueFrom(0, ds)
  }

  lemma {:induction false} ValueFromAtLeast(acc: nat, ds: string)
    requires AllDigits(ds)
    ensures ValueFrom(acc, ds) >= acc
    decreases |ds|
  {
    if |ds| > 0 {
      ValueFromAtLeast(acc * 10 + DigitValue(ds[0]), ds[1..]);
    }
  }

  lemma {:induction false} ValueFromSnoc(acc: nat, ds: string, c: char)
    requires AllDigits(ds) && IsDigit(c)
    ensures AllDigits(ds + [c])
    ensures ValueFrom(acc, ds + [c]) == ValueFrom(acc, ds) * 10 + DigitValue(c)
    decreases |ds|
  {
    if |ds| > 0 {
      assert (ds + [c])[1..] == ds[1..] + [c];
      ValueFromSnoc(acc * 10 + DigitValue(ds[0]), ds[1..], c);
    }
  }

  /** Rendering then reading back digits gives the number again. */
  lemma {:induction false} ValueOfDecimal(n: nat)
    ensures Value(Decimal(n)) == n
    decreases n
  {
    if n < 10 {
      assert Decimal(n) == [DigitChar(n)];
      assert ValueFrom(0, [DigitChar(n)]) == ValueFrom(n, []);
    } else {
      var c := DigitChar(n % 10);
      assert Decimal(n) == Decimal(n / 10) + [c];
      ValueOfDecimal(n / 10);
      ValueFromSnoc(0, Decimal(n / 10), c);
      assert Value(Decimal(n)) == (n / 10) * 10 + n % 10;
    }
  }

  /** The digit loop of `u32::from_str`: each character must be a digit,
      checked before the running value is multiplied, and the running
      value must stay within 32 bits. */
  function Accumulate(ds: string, acc: nat): (r: Result<U32>)
    requires acc <= U32Max
    ensures r.Ok? <==> AllDigits(ds) && ValueFrom(acc, ds) <= U32Max
    ensures r.Ok? ==> r.value as int == ValueFrom(acc, ds)
    decreases |ds|
  {
    if |ds| == 0 then
      Ok(acc as U32)
    else if !IsDigit(ds[0]) then
      Err(Error(InvalidDigitMessage))
    else
      var next := acc * 10 + DigitValue(ds[0]);
      if next > U32Max then
        assert AllDigits(ds) ==> ValueFrom(acc, ds) > U32Max by {
          if AllDigits(ds) { ValueFromAtLeast(next, ds[1..]); }
        }
        Err(Error(OverflowMessage))
      else
        assert AllDigits(ds) <==> AllDigits(ds[1..]) by {
          if AllDigits(ds[1..]) {
            forall i | 0 <= i < |ds| ensures IsDigit(ds[i]) {
              if i > 0 { assert ds[i] == ds[1..][i - 1]; }
            }
          }
        }
        Accumulate(ds[1..], next)
  }

  /** The digits after an optional leading `+`. */
  function Body(s: string): string {
    if |s| > 0 && s[0] == '+' then s[1..] else s
  }

  /** `str::parse::<u32>`. */
  function ParseU32(s: string): (r: Result<U32>)
    ensures r.Ok? <==> |Body(s)| > 0 && AllDigits(Body(s)) && Value(Body(s)) <= U32Max
    ensures r.Ok? ==> r.value as int == Value(Body(s))
    ensures |s| == 0 ==> r == Err(Error(EmptyMessage))
  {
    if |s| == 0 then
      Err(Error(EmptyMessage))
    else if (s[0] == '+' || s[0] == '-') && |s| == 1 then
      Err(Error(InvalidDigitMessage))
    else
      Accumulate(Body(s), 0)
  }

  /** `impl Display for Pid`. */
  function PidToString(p: Pid): (s: string)
    ensures |s| >= 1 && AllDigits(s)
    ensures |s| > 1 ==> s[0] != '0'
    ensures Value(s) == p.id as int
  {
    ValueOfDecimal(p.id as nat);
    Decimal(p.id as nat)
  }

  /** `impl TryFrom<String> for Pid`. */
  function PidTryFrom(s: string): (r: Result<Pid>)
    ensures r.Ok? <==> ParseU32(s).Ok?
    ensures r.Ok? ==> r.value.id == ParseU32(s).value
  {
    var n :- ParseU32(s);
    Ok(Pid(n))
  }

  /** Every process id survives being written out and parsed back. */
  lemma PidRoundTrip(p: Pid)
    ensures PidTryFrom(PidToString(p)) == Ok(p)
  {
    var s := PidToString(p);
    ValueOfDecimal(p.id as nat);
    assert Body(s) == s;
  }

  /** A character that is neither a digit nor the leading `+` makes the text
      unreadable; a trailing newline is such a character. */
  lemma PidRejectsNonDigit(s: string, i: nat)
    requires i < |s| && !IsDigit(s[i])
    requires !(i == 0 && s[0] == '+')
    ensures PidTryFrom(s).Err?
  {
  }

  /** Digits denoting a number above `u32::MAX` are rejected. */
  lemma PidRejectsOverflow(s: string)
    requires AllDigits(s) && Value(s) > U32Max
    ensures PidTryFrom(s).Err?
  {
  }

  /** The empty string, a trailing newline, the first value past
      `u32::MAX` and a leading `+`. */
  lemma PidExamples()
    ensures PidTryFrom("").Err?
    ensures PidTryFrom("42\n").Err?
    ensures PidTryFrom(Decimal(U32Max + 1)).Err?
    ensures PidTryFrom("+7") == Ok(Pid(7))
  {
    PidRejectsNonDigit("42\n", 2);
    ValueOfDecimal(U32Max + 1);
    PidRejectsOverflow(Decimal(U32Max + 1));
    assert Body("+7") == "7";
    assert Value("7") == ValueFrom(7, "");
  }
}
