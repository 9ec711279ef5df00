/** Decimal lengths: what Content-Length prints and what the parser reads back. */
module HttpLength {
  import opened Bytes
  import opened HttpTypes
  import opened HttpAct
  import opened HttpRuns

  predicate IsDecimal(s: seq<byte>) {
    forall i :: 0 <= i < |s| ==> IsNum(s[i])
  }

  /** The number written by digits `s` after a number `a`. */
  function DecimalFrom(a: nat, s: seq<byte>): (n: nat)
    requires IsDecimal(s)
    ensures n >= a
    decreases |s|
  {
    if s == [] then a else DecimalFrom(a * 10 + (s[0] - '0' as int), s[1..])
  }

  /** The largest accumulator to which another digit is accepted. */
  const LENGTH_LIMIT: nat := (ULLONG_MAX - 10) / 10

  /** All digits but the last leave a number within the limit. */
  predicate LengthFits(a: nat, s: seq<byte>)
    requires IsDecimal(s)
  {
    s == [] || DecimalFrom(a, s[..|s| - 1]) <= LENGTH_LIMIT
  }

  lemma LengthFitsStep(a: nat, s: seq<byte>)
    requires IsDecimal(s) && s != []
    ensures LengthFits(a, s) <==> a <= LENGTH_LIMIT && LengthFits(a * 10 + (s[0] - '0' as int), s[1..])
    ensures LengthFits(a, s) && s[1..] == [] ==> DecimalFrom(a, s) < ULLONG_MAX
  {
    if s[1..] == [] {
      assert s[..|s| - 1] == [];
    } else {
      var init := s[..|s| - 1];
      assert init[0] == s[0] && init[1..] == s[1..][..|s[1..]| - 1];
    }
  }

  lemma LengthDigit(v: ValueScan, lenient: bool, c: byte)
    requires v.m.h == ContentLengthNum && v.errno == OK && IsNum(c)
    ensures ValueStep(v, lenient, c) ==
      if v.length <= LENGTH_LIMIT then v.(length := v.length * 10 + (c - '0' as int))
      else v.(errno := INVALID_CONTENT_LENGTH)
  {
  }

  /** The Content-Length accumulator is exact, and fails exactly when a digit is added to a number
      over the limit: never by wrapping around 2^64, and never by colliding with the sentinel. */
  lemma {:induction false} LengthExact(v: ValueScan, lenient: bool, s: seq<byte>)
    requires v.m.h == ContentLengthNum && v.errno == OK && IsDecimal(s)
    ensures if LengthFits(v.length, s) then
              ValueSteps(v, lenient, s) == v.(length := DecimalFrom(v.length, s))
              && (s != [] ==> DecimalFrom(v.length, s) < ULLONG_MAX)
            else ValueSteps(v, lenient, s).errno == INVALID_CONTENT_LENGTH
    decreases |s|
  {
    hide ValueStep, IsNum;
    if s != [] {
      LengthDigit(v, lenient, s[0]);
      LengthFitsStep(v.length, s);
      var w := ValueStep(v, lenient, s[0]);
      if w.errno == OK {
        LengthExact(w, lenient, s[1..]);
      }
    }
  }

  // ---------- any value ----------

  predicate AllSpaces(s: seq<byte>) {
    forall i :: 0 <= i < |s| ==> s[i] == SP
  }

  /** The length read after a number `a`: more digits, each added to a number within the limit, and then spaces. */
  function LengthFrom(a: nat, s: seq<byte>): Option<nat>
    decreases |s|
  {
    if AllSpaces(s) then Some(a)
    else if IsNum(s[0]) && a <= LENGTH_LIMIT then LengthFrom(a * 10 + (s[0] - '0' as int), s[1..]) else None
  }

  /** The length that a value of Content-Length declares, if it declares one. */
  function LengthOf(v: seq<byte>): Option<nat> {
    if v != [] && IsNum(v[0]) then LengthFrom(v[0] - '0' as int, v[1..]) else None
  }

  lemma LengthOther(v: ValueScan, lenient: bool, c: byte)
    requires v.errno == OK
    ensures v.m.h == ContentLengthNum && c == SP ==> ValueStep(v, lenient, c) == v.(m := v.m.(h := ContentLengthWs))
    ensures v.m.h == ContentLengthNum && c != SP && !IsNum(c) ==> ValueStep(v, lenient, c).errno != OK
    ensures v.m.h == ContentLengthWs && c == SP ==> ValueStep(v, lenient, c) == v
    ensures v.m.h == ContentLengthWs && c != SP ==> ValueStep(v, lenient, c).errno != OK
  {
  }

  /** Behind a space only spaces are accepted. */
  lemma {:induction false} SpaceSteps(v: ValueScan, lenient: bool, s: seq<byte>)
    requires v.m.h == ContentLengthWs && v.errno == OK
    ensures if AllSpaces(s) then ValueSteps(v, lenient, s) == v else ValueSteps(v, lenient, s).errno != OK
    decreases |s|
  {
    hide ValueStep;
    if s != [] {
      LengthOther(v, lenient, s[0]);
      if s[0] == SP {
        SpaceSteps(v, lenient, s[1..]);
        assert AllSpaces(s) <==> AllSpaces(s[1..]) by { SpacesRest(s); }
      }
    }
  }

  lemma SpacesRest(s: seq<byte>)
    requires s != []
    ensures AllSpaces(s) <==> s[0] == SP && AllSpaces(s[1..])
  {
    if s[0] == SP && AllSpaces(s[1..]) {
      forall i | 0 <= i < |s| ensures s[i] == SP {
        if i > 0 { assert s[1..][i - 1] == SP; }
      }
    }
  }

  /** Whatever follows the first digit of a Content-Length: the value is accepted exactly if it declares a length, and
      then that length is recorded. */
  lemma {:induction false} LengthSteps(v: ValueScan, lenient: bool, s: seq<byte>)
    requires v.m.h == ContentLengthNum && v.errno == OK
    ensures var w := ValueSteps(v, lenient, s);
      if LengthFrom(v.length, s).Some? then w == v.(m := w.m, length := LengthFrom(v.length, s).value) && !w.m.h.ContentLength?
      else w.errno != OK
    decreases |s|
  {
    hide ValueStep, IsNum, AllSpaces;
    if s == [] {
      assert AllSpaces(s) by { NoneSpaces(); }
    } else {
      var w := ValueStep(v, lenient, s[0]);
      SpacesRest(s);
      LengthOther(v, lenient, s[0]);
      if s[0] == SP {
        SpaceSteps(w, lenient, s[1..]);
        NoDigit();
      } else if IsNum(s[0]) {
        LengthDigit(v, lenient, s[0]);
        if w.errno == OK {
          LengthSteps(w, lenient, s[1..]);
        }
      }
    }
  }

  lemma NoneSpaces()
    ensures AllSpaces([])
  {
  }

  lemma NoDigit()
    ensures !IsNum(SP)
  {
  }

  /** A length that is accepted never collides with the sentinel. */
  lemma {:induction false} LengthBelow(a: nat, s: seq<byte>)
    requires a < ULLONG_MAX
    ensures LengthFrom(a, s).Some? ==> LengthFrom(a, s).value < ULLONG_MAX
    decreases |s|
  {
    hide AllSpaces;
    if !AllSpaces(s) && s != [] && IsNum(s[0]) && a <= LENGTH_LIMIT {
      LengthBelow(a * 10 + (s[0] - '0' as int), s[1..]);
    } else if s == [] {
      NoneSpaces();
    }
  }

  /** Digits declare their decimal value, if it fits. */
  lemma {:induction false} LengthOfDigits(a: nat, s: seq<byte>)
    requires IsDecimal(s)
    ensures LengthFrom(a, s) == if LengthFits(a, s) then Some(DecimalFrom(a, s)) else None
    decreases |s|
  {
    hide IsNum, AllSpaces;
    if s == [] {
      NoneSpaces();
    } else {
      SpacesRest(s);
      NoDigit();
      LengthFitsStep(a, s);
      DigitValue(s[0]);
      LengthOfDigits(a * 10 + (s[0] - '0' as int), s[1..]);
    }
  }

  lemma DigitValue(c: byte)
    requires IsNum(c)
    ensures 0 <= c - '0' as int <= 9
  {
  }

  // ---------- printing ----------

  /** The digits of `n`, as "%d" prints them. */
  function DecimalText(n: nat): (s: seq<byte>)
    ensures s != [] && IsDecimal(s)
  {
    if n < 10 then [n + '0' as int] else DecimalText(n / 10) + [n % 10 + '0' as int]
  }

  /** snprintf("%d", i) */
  function PrintInt(i: int): seq<byte> {
    if i < 0 then ['-' as int] + DecimalText(-i) else DecimalText(i)
  }

  /** A size_t passed where an int is expected: its low 32 bits, read as signed. */
  function AsInt(n: nat): int {
    (n + 0x8000_0000) % 0x1_0000_0000 - 0x8000_0000
  }

  lemma {:induction false} DecimalSnoc(a: nat, s: seq<byte>, c: byte)
    requires IsDecimal(s) && IsNum(c)
    ensures DecimalFrom(a, s + [c]) == DecimalFrom(a, s) * 10 + (c - '0' as int)
    decreases |s|
  {
    if s == [] {
      assert s + [c] == [c] && [c][1..] == [];
    } else {
      assert (s + [c])[0] == s[0] && (s + [c])[1..] == s[1..] + [c];
      DecimalSnoc(a * 10 + (s[0] - '0' as int), s[1..], c);
    }
  }

  /** Reading what was printed. */
  lemma {:induction false} DecimalRoundTrip(n: nat)
    ensures DecimalFrom(0, DecimalText(n)) == n
  {
    if n >= 10 {
      DecimalRoundTrip(n / 10);
      DecimalSnoc(0, DecimalText(n / 10), n % 10 + '0' as int);
    } else {
      assert DecimalText(n)[1..] == [];
    }
  }

  /** The declared length is the length of the body exactly when it fits in an int: a longer body is
      announced with another number, or with a minus sign. */
  lemma DeclaredLength(n: nat)
    ensures PrintInt(AsInt(n)) == DecimalText(n) <==> n < 0x8000_0000
  {
    hide DecimalText, DecimalFrom, IsNum, AsInt;
    var i := AsInt(n);
    AsIntExact(n);
    DecimalRoundTrip(n);
    if i >= 0 {
      DecimalRoundTrip(i);
    } else {
      NoMinus(DecimalText(n));
      assert PrintInt(i)[0] == '-' as int;
    }
  }

  lemma AsIntExact(n: nat)
    ensures AsInt(n) == n <==> n < 0x8000_0000
    ensures AsInt(n) < 0x8000_0000
  {
  }

  lemma NoMinus(s: seq<byte>)
    requires s != [] && IsDecimal(s)
    ensures s[0] != '-' as int
  {
  }

  lemma {:induction false} PrintedFits(k: nat)
    ensures LengthFits(0, DecimalText(k)) <==> k < 10 || k / 10 <= LENGTH_LIMIT
  {
    hide IsNum, DecimalFrom;
    if k >= 10 {
      DecimalRoundTrip(k / 10);
      var s := DecimalText(k);
      assert s[..|s| - 1] == DecimalText(k / 10);
    } else {
      DecimalRoundTrip(k);
      NothingFits();
    }
  }

  lemma NothingFits()
    ensures DecimalFrom(0, []) == 0
  {
  }

  /** A printed length is the length that is read. */
  lemma LengthOfPrinted(k: nat)
    requires k / 10 <= LENGTH_LIMIT
    ensures LengthOf(DecimalText(k)) == Some(k)
  {
    hide IsNum, AllSpaces, LengthFrom, DecimalText;
    var v := DecimalText(k);
    PrintedFits(k);
    DecimalRoundTrip(k);
    LengthFitsStep(0, v);
    DigitValue(v[0]);
    LengthOfDigits(v[0] - '0' as int, v[1..]);
  }
}
