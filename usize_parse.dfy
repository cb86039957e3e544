/** `<usize as FromStr>::from_str` for a 64-bit `usize`, the parse that
    turns a Content-Length value into the body ceiling: an optional '+',
    then one or more decimal digits, scanned left to right, failing on
    the first byte that is not a digit or on the first step that would
    exceed `usize::MAX`. */
module UsizeParse {
  import opened Ascii
  import opened Wrappers

  const USIZE_MAX: nat := 0xFFFF_FFFF_FFFF_FFFF

  /** The `IntErrorKind`s an unsigned parse can report. */
  datatype IntErrorKind = Empty | InvalidDigit | PosOverflow

  function ParseUsize(s: seq<byte>): (r: Result<nat, IntErrorKind>)
    ensures r.Ok? ==> r.value <= USIZE_MAX
  {
    if s == [] then Err(Empty)
    else if (s[0] == PLUS || s[0] == MINUS) && |s| == 1 then Err(InvalidDigit)
    else Accumulate(Unsigned(s), 0)
  }

  /** The digit loop: `acc * 10 + digit`, checked against `usize::MAX`. */
  function Accumulate(digits: seq<byte>, acc: nat): (r: Result<nat, IntErrorKind>)
    requires acc <= USIZE_MAX
    ensures r.Ok? ==> acc <= r.value <= USIZE_MAX
  {
    if digits == [] then Ok(acc)
    else if !IsDigit(digits[0]) then Err(InvalidDigit)
    else
      var next := acc * 10 + DigitValue(digits[0]);
      if next > USIZE_MAX then Err(PosOverflow) else Accumulate(digits[1..], next)
  }

  /** The text after an optional leading '+' (an unsigned parse does not
      strip '-'). */
  function Unsigned(s: seq<byte>): seq<byte>
  {
    if s != [] && s[0] == PLUS then s[1..] else s
  }

  predicate AllDigits(ds: seq<byte>)
  {
    forall i :: 0 <= i < |ds| ==> IsDigit(ds[i])
  }

  /** The number a string of decimal digits denotes, most significant first. */
  function DigitsValue(ds: seq<byte>): nat
    requires AllDigits(ds)
  {
    if ds == [] then 0 else DigitsValue(ds[..|ds| - 1]) * 10 + DigitValue(ds[|ds| - 1])
  }

  /** The texts `usize::from_str` is meant to accept: '+'? digit+. */
  predicate IsDecimal(s: seq<byte>)
  {
    Unsigned(s) != [] && AllDigits(Unsigned(s))
  }

  /** The decimal text of `v`, without leading zeros. */
  function Decimal(v: nat): (ds: seq<byte>)
    ensures ds != [] && AllDigits(ds) && DigitsValue(ds) == v
    ensures v > 0 ==> ds[0] != 0x30
  {
    if v < 10 then
      var ds := [(0x30 + v) as byte];
      assert ds[..0] == [];
      ds
    else
      var init := Decimal(v / 10);
      var ds := init + [(0x30 + v % 10) as byte];
      assert ds[..|ds| - 1] == init;
      ds
  }

  /** A longer digit string never denotes a smaller number. */
  lemma {:induction false} DigitsValuePrefix(p: seq<byte>, t: seq<byte>)
    requires AllDigits(p + t)
    ensures AllDigits(p) && DigitsValue(p) <= DigitsValue(p + t)
  {
    assert forall i :: 0 <= i < |p| ==> p[i] == (p + t)[i];
    if t != [] {
      var q := p + t;
      var init := q[..|q| - 1];
      assert init == p + t[..|t| - 1];
      assert forall i :: 0 <= i < |init| ==> init[i] == q[i];
      DigitsValuePrefix(p, t[..|t| - 1]);
      assert DigitsValue(q) == DigitsValue(init) * 10 + DigitValue(q[|q| - 1]);
    } else {
      assert p + t == p;
    }
  }

  /** The digit loop started on the value of the digits already read
      succeeds exactly when the rest are digits and the whole number fits,
      and then yields the value of the whole number. */
  lemma {:induction false} AccumulateValue(pre: seq<byte>, ds: seq<byte>)
    requires AllDigits(pre) && DigitsValue(pre) <= USIZE_MAX
    ensures Accumulate(ds, DigitsValue(pre)).Ok? <==>
              AllDigits(pre + ds) && DigitsValue(pre + ds) <= USIZE_MAX
    ensures Accumulate(ds, DigitsValue(pre)).Ok? ==>
              AllDigits(pre + ds) && Accumulate(ds, DigitsValue(pre)).value == DigitsValue(pre + ds)
    decreases |ds|
  {
    if ds == [] {
      assert pre + ds == pre;
    } else if !IsDigit(ds[0]) {
      assert (pre + ds)[|pre|] == ds[0];
    } else {
      var pre' := pre + [ds[0]];
      assert pre'[..|pre'| - 1] == pre;
      assert AllDigits(pre');
      assert pre' + ds[1..] == pre + ds;
      if DigitsValue(pre') > USIZE_MAX {
        if AllDigits(pre + ds) {
          DigitsValuePrefix(pre', ds[1..]);
        }
      } else {
        AccumulateValue(pre', ds[1..]);
      }
    }
  }

  /** `usize::from_str` accepts exactly the decimal texts whose value fits
      in 64 bits, and returns that value. */
  lemma ParseUsizeAccepts(s: seq<byte>)
    ensures ParseUsize(s).Ok? <==> IsDecimal(s) && DigitsValue(Unsigned(s)) <= USIZE_MAX
    ensures ParseUsize(s).Ok? ==> IsDecimal(s) && ParseUsize(s).value == DigitsValue(Unsigned(s))
  {
    if s != [] && !((s[0] == PLUS || s[0] == MINUS) && |s| == 1) {
      AccumulateValue([], Unsigned(s));
      assert [] + Unsigned(s) == Unsigned(s);
    } else if s != [] && s[0] == MINUS {
      assert !IsDigit(Unsigned(s)[0]);
    }
  }

  /** Printing a number that fits and parsing it back gives the number. */
  lemma DecimalRoundTrip(v: nat)
    requires v <= USIZE_MAX
    ensures ParseUsize(Decimal(v)) == Ok(v)
    ensures ParseUsize([PLUS] + Decimal(v)) == Ok(v)
  {
    var ds := Decimal(v);
    assert IsDigit(ds[0]);
    ParseUsizeAccepts(ds);
    assert Unsigned([PLUS] + ds) == ds;
    ParseUsizeAccepts([PLUS] + ds);
  }

  /** A value one past the 64-bit range is refused, not wrapped. */
  lemma ParseUsizeOverflow(v: nat)
    requires v > USIZE_MAX
    ensures ParseUsize(Decimal(v)) == Err(PosOverflow)
  {
    var ds := Decimal(v);
    assert IsDigit(ds[0]);
    ParseUsizeAccepts(ds);
    AccumulateOverflow(ds, 0);
  }

  /** On a digit string the digit loop can only fail by overflow. */
  lemma {:induction false} AccumulateOverflow(ds: seq<byte>, acc: nat)
    requires AllDigits(ds) && acc <= USIZE_MAX
    ensures Accumulate(ds, acc).Err? ==> Accumulate(ds, acc).error == PosOverflow
  {
    if ds != [] {
      var next := acc * 10 + DigitValue(ds[0]);
      if next <= USIZE_MAX {
        AccumulateOverflow(ds[1..], next);
      }
    }
  }
}
