/** TCMSTimeUtil: the UTCTime / GeneralizedTime choice and its inverse
    (section 11.3 of RFC 2630). Times are calendar fields at whole seconds. */
module TimeUtil {
  import opened Outcomes
  import opened DerCodec
  import opened Asn1

  datatype Fields = Fields(year: nat, month: nat, day: nat, hour: nat, minute: nat, second: nat)

  predicate ValidFields(t: Fields) {
    t.year < 10000 && 1 <= t.month <= 12 && 1 <= t.day <= 31 && t.hour < 24 && t.minute < 60 && t.second < 60
  }

  type Time = t: Fields | ValidFields(t) witness Fields(0, 1, 1, 0, 0, 0)

  const UTC_TIME_ID: byte := 0x17
  const GENERALIZED_TIME_ID: byte := 0x18
  const ZULU: byte := 0x5A

  // ------------------------------------------------------------ decimal digits

  function Pow10(k: nat): nat {
    if k == 0 then 1 else 10 * Pow10(k - 1)
  }

  /** The k low decimal digits of n as ASCII. */
  function Decimal(n: nat, k: nat): (s: bytes)
    ensures |s| == k
  {
    if k == 0 then [] else Decimal(n / 10, k - 1) + [(0x30 + n % 10) as byte]
  }

  predicate AllDigits(s: bytes) {
    forall i :: 0 <= i < |s| ==> 0x30 <= s[i] <= 0x39
  }

  function Number(s: bytes): nat
    requires AllDigits(s)
  {
    if s == [] then 0 else Number(s[..|s| - 1]) * 10 + (s[|s| - 1] - 0x30) as nat
  }

  lemma {:induction false} NumberDecimal(n: nat, k: nat)
    requires n < Pow10(k)
    ensures AllDigits(Decimal(n, k)) && Number(Decimal(n, k)) == n
  {
    if k != 0 {
      NumberDecimal(n / 10, k - 1);
      assert Decimal(n, k)[..k - 1] == Decimal(n / 10, k - 1);
    }
  }

  /** Numbers below one hundred, two digits each. */
  function Pairs(ns: seq<nat>): (s: bytes)
    ensures |s| == 2 * |ns|
  {
    if ns == [] then [] else Decimal(ns[0], 2) + Pairs(ns[1..])
  }

  function ReadPairs(s: bytes): (ns: seq<nat>)
    requires AllDigits(s)
    ensures |ns| == |s| / 2
  {
    if |s| < 2 then [] else [Number(s[..2])] + ReadPairs(s[2..])
  }

  lemma {:induction false} ReadPairsInverse(ns: seq<nat>)
    requires forall i :: 0 <= i < |ns| ==> ns[i] < 100
    ensures AllDigits(Pairs(ns)) && ReadPairs(Pairs(ns)) == ns
  {
    if ns != [] {
      assert Pow10(2) == 100;
      NumberDecimal(ns[0], 2);
      ReadPairsInverse(ns[1..]);
      assert Pairs(ns)[..2] == Decimal(ns[0], 2) && Pairs(ns)[2..] == Pairs(ns[1..]);
    }
  }

  // -------------------------------------------------------------- time strings

  /** The digits of year, month, day, hour, minute and second, and a final Z. */
  function TimeString(year: nat, yearDigits: nat, t: Fields): (s: bytes)
    ensures |s| == yearDigits + 11
  {
    Decimal(year, yearDigits) + Pairs([t.month, t.day, t.hour, t.minute, t.second]) + [ZULU]
  }

  function DecString(s: bytes, yearDigits: nat): (r: Outcome<Fields>)
    ensures r != Panic
  {
    if |s| != yearDigits + 11 || s[yearDigits + 10] != ZULU || !AllDigits(s[..yearDigits])
      || !AllDigits(s[yearDigits..yearDigits + 10])
    then Leave(KErrLibrary)
    else
      var d := ReadPairs(s[yearDigits..yearDigits + 10]);
      Ok(Fields(Number(s[..yearDigits]), d[0], d[1], d[2], d[3], d[4]))
  }

  lemma DecStringInverse(t: Fields, year: nat, yearDigits: nat)
    requires ValidFields(t) && year < Pow10(yearDigits)
    ensures DecString(TimeString(year, yearDigits, t), yearDigits) == Ok(t.(year := year))
  {
    var ns := [t.month, t.day, t.hour, t.minute, t.second];
    NumberDecimal(year, yearDigits);
    ReadPairsInverse(ns);
    var s := TimeString(year, yearDigits, t);
    assert s[..yearDigits] == Decimal(year, yearDigits);
    assert s[yearDigits..yearDigits + 10] == Pairs(ns);
  }

  function Checked(t: Fields): (r: Outcome<Time>) {
    if ValidFields(t) then Ok(t) else Leave(KErrLibrary)
  }

  function EncUtcTime(t: Time): Enc {
    Leaf(UTC_TIME_ID, TimeString(t.year % 100, 2, t))
  }

  function EncGeneralizedTime(t: Time): Enc {
    Leaf(GENERALIZED_TIME_ID, TimeString(t.year, 4, t))
  }

  /** Two-digit years from 50 upwards lie in the twentieth century. */
  function DecUtcTime(item: Item): (r: Outcome<Time>)
    ensures r != Panic
  {
    var t :- DecString(item.contents, 2);
    Checked(t.(year := if t.year >= 50 then 1900 + t.year else 2000 + t.year))
  }

  function DecGeneralizedTime(item: Item): (r: Outcome<Time>)
    ensures r != Panic
  {
    var t :- DecString(item.contents, 4);
    Checked(t)
  }

  lemma GeneralizedTimeRoundTrip(t: Time)
    ensures DecGeneralizedTime(ItemOf(EncGeneralizedTime(t))) == Ok(t) && Fits(EncGeneralizedTime(t))
  {
    assert Pow10(4) == 10000;
    DecStringInverse(t, t.year, 4);
  }

  // --------------------------------------------------------------- the choice

  /** ConvertToEncoderLC: years 1950 to 2049 as UTCTime, all others as GeneralizedTime. */
  function EncTime(t: Time): Enc {
    if 1950 <= t.year <= 2049 then EncUtcTime(t) else EncGeneralizedTime(t)
  }

  /** ConvertToTimeL */
  function DecTime(raw: bytes): (r: Outcome<Time>)
    ensures r != Panic
  {
    var item :- Head(raw);
    if item.Tag() == GENERALIZED_TIME_TAG then DecGeneralizedTime(item)
    else if item.Tag() == UTC_TIME_TAG then DecUtcTime(item)
    else Leave(KErrArgument)
  }

  predicate DigitsAt(s: bytes, pos: nat, count: nat, n: nat) {
    pos + count <= |s| && AllDigits(s[pos..pos + count]) && Number(s[pos..pos + count]) == n
  }

  /** The written form: two or four digits of the year, then month, day, hour, minute and
      second with two digits each, and a Z. */
  lemma TimeDigits(t: Time)
    ensures var s, y := Contents(EncTime(t)), if 1950 <= t.year <= 2049 then 2 else 4;
      && |s| == y + 11 && s[y + 10] == 0x5A
      && DigitsAt(s, 0, y, if y == 2 then t.year % 100 else t.year)
      && DigitsAt(s, y, 2, t.month) && DigitsAt(s, y + 2, 2, t.day)
      && DigitsAt(s, y + 4, 2, t.hour) && DigitsAt(s, y + 6, 2, t.minute) && DigitsAt(s, y + 8, 2, t.second)
  {
    hide Decimal, Pairs;
    assert Pow10(2) == 100 && Pow10(4) == 10000;
    var y := if 1950 <= t.year <= 2049 then 2 else 4;
    var year := if y == 2 then t.year % 100 else t.year;
    var ns := [t.month, t.day, t.hour, t.minute, t.second];
    var s := TimeString(year, y, t);
    NumberDecimal(year, y);
    assert s[0..y] == Decimal(year, y) && s[y..y + 10] == Pairs(ns);
    forall i | 0 <= i < 5 ensures DigitsAt(s, y + 2 * i, 2, ns[i]) {
      PairAt(ns, i);
      NumberDecimal(ns[i], 2);
      assert s[y + 2 * i..y + 2 * i + 2] == s[y..y + 10][2 * i..2 * i + 2];
    }
    assert DigitsAt(s, y + 2 * 0, 2, ns[0]) && DigitsAt(s, y + 2 * 1, 2, ns[1]) && DigitsAt(s, y + 2 * 2, 2, ns[2]);
    assert DigitsAt(s, y + 2 * 3, 2, ns[3]) && DigitsAt(s, y + 2 * 4, 2, ns[4]);
  }

  lemma {:induction false} PairAt(ns: seq<nat>, i: nat)
    requires i < |ns|
    ensures Pairs(ns)[2 * i..2 * i + 2] == Decimal(ns[i], 2)
  {
    hide Decimal;
    if i != 0 {
      PairAt(ns[1..], i - 1);
      assert Pairs(ns)[2 * i..2 * i + 2] == Pairs(ns)[2..][2 * (i - 1)..2 * (i - 1) + 2];
      assert Pairs(ns)[2..] == Pairs(ns[1..]);
    }
  }

  /** Every time is read back from its own encoding; a UTCTime is written for
      exactly the years 1950 to 2049. */
  lemma TimeRoundTrip(t: Time)
    ensures DecTime(Der(EncTime(t))) == Ok(t)
    ensures Fits(EncTime(t))
    ensures ItemOf(EncTime(t)).Tag() == UTC_TIME_TAG <==> 1950 <= t.year <= 2049
    ensures ItemOf(EncTime(t)).Tag() == GENERALIZED_TIME_TAG <==> !(1950 <= t.year <= 2049)
  {
    hide Decimal, Pairs, DecString, Tlv, TimeString;
    ReadWholeDer(EncTime(t));
    if 1950 <= t.year <= 2049 {
      assert Pow10(2) == 100;
      DecStringInverse(t, t.year % 100, 2);
    } else {
      GeneralizedTimeRoundTrip(t);
    }
  }
}
