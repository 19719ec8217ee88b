/** FormatLimitOffset: the LIMIT/OFFSET clause for a page of results. */
module Pagination {
  import opened Wrappers
  import opened Digits

  predicate StartsWith(s: string, prefix: string) {
    |prefix| <= |s| && s[..|prefix|] == prefix
  }

  /**
   * The clause for (limit, offset): a bound that is not positive is left
   * out, and both left out give the empty string.
   */
  function FormatLimitOffset(limit: int, offset: int): (r: string)
    ensures r == "" <==> limit <= 0 && offset <= 0
    ensures StartsWith(r, "LIMIT ") <==> limit > 0
    ensures StartsWith(r, "OFFSET ") <==> limit <= 0 && offset > 0
  {
    if limit > 0 && offset > 0 then
      var r := "LIMIT " + Decimal(limit) + " OFFSET " + Decimal(offset);
      assert r[..7] != "OFFSET " by { assert r[0] == 'L'; }
      r
    else if limit > 0 then
      var r := "LIMIT " + Decimal(limit);
      assert r[..7] != "OFFSET " by { assert r[0] == 'L'; }
      r
    else if offset > 0 then
      var r := "OFFSET " + Decimal(offset);
      assert r[..6] != "LIMIT " by { assert r[0] == 'O'; }
      r
    else ""
  }

  /** The effective bound: a non-positive limit or offset means none (0). */
  function Effective(x: int): nat {
    if x > 0 then x else 0
  }

  /** Length of the run of digits at the start of s. */
  function DigitRun(s: string): (k: nat)
    ensures k <= |s| && AllDigits(s[..k])
    ensures k < |s| ==> !IsDigit(s[k])
  {
    if s != [] && IsDigit(s[0]) then
      var k := 1 + DigitRun(s[1..]);
      assert s[..k] == [s[0]] + s[1..][..k - 1];
      k
    else 0
  }

  /**
   * Reads a clause back as (limit, offset), 0 standing for an absent bound.
   * Only the four shapes the formatter writes are accepted: "", "LIMIT n",
   * "OFFSET n" and "LIMIT n OFFSET m", each number positive and written with
   * no leading zero; any other text is None. It is an independent reading
   * of what the clause says.
   */
  function ParseLimitOffset(s: string): Option<(nat, nat)> {
    if s == [] then Some((0, 0))
    else if StartsWith(s, "LIMIT ") then
      var rest := s[6..];
      var k := DigitRun(rest);
      AfterLimit(rest[..k], rest[k..])
    else if StartsWith(s, "OFFSET ") && PositiveDecimal(s[7..]) then Some((0, ValueOf(s[7..])))
    else None
  }

  /** The clause once "LIMIT " and its digits are read: nothing more, or " OFFSET " and the offset's digits. */
  function AfterLimit(digits: string, tail: string): Option<(nat, nat)>
    requires AllDigits(digits)
  {
    if !PositiveDecimal(digits) then None
    else if tail == [] then Some((ValueOf(digits), 0))
    else if StartsWith(tail, " OFFSET ") && PositiveDecimal(tail[8..]) then Some((ValueOf(digits), ValueOf(tail[8..])))
    else None
  }

  lemma {:induction false} DigitRunOfDigits(d: string, t: string)
    requires AllDigits(d)
    requires t == [] || !IsDigit(t[0])
    ensures DigitRun(d + t) == |d|
    decreases |d|
  {
    if d != [] {
      assert (d + t)[1..] == d[1..] + t;
      DigitRunOfDigits(d[1..], t);
    } else {
      assert d + t == t;
    }
  }

  /** The clause reads back as the effective limit and offset it was made from. */
  lemma FormatThenParse(limit: int, offset: int)
    ensures ParseLimitOffset(FormatLimitOffset(limit, offset)) == Some((Effective(limit), Effective(offset)))
  {
    if limit > 0 && offset > 0 {
      ParseBoth(limit, offset);
    } else if limit > 0 {
      ParseLimit(limit);
    } else if offset > 0 {
      ParseOffset(offset);
    }
  }

  lemma ParseBoth(limit: nat, offset: nat)
    requires limit >= 1 && offset >= 1
    ensures ParseLimitOffset("LIMIT " + Decimal(limit) + " OFFSET " + Decimal(offset)) == Some((limit, offset))
  {
    var dl, tail := Decimal(limit), " OFFSET " + Decimal(offset);
    assert "LIMIT " + dl + " OFFSET " + Decimal(offset) == "LIMIT " + dl + tail;
    ParseLimitThen(dl, tail);
    ValueOfDecimal(limit);
    assert tail[..8] == " OFFSET ";
    assert tail[8..] == Decimal(offset);
    ValueOfDecimal(offset);
  }

  lemma ParseLimit(limit: nat)
    requires limit >= 1
    ensures ParseLimitOffset("LIMIT " + Decimal(limit)) == Some((limit, 0))
  {
    var dl := Decimal(limit);
    assert "LIMIT " + dl == "LIMIT " + dl + [];
    ParseLimitThen(dl, []);
    ValueOfDecimal(limit);
  }

  /** A clause that starts with a limit reads its digits, then what follows them. */
  lemma ParseLimitThen(digits: string, tail: string)
    requires AllDigits(digits) && (tail == [] || !IsDigit(tail[0]))
    ensures ParseLimitOffset("LIMIT " + digits + tail) == AfterLimit(digits, tail)
  {
    var s := "LIMIT " + digits + tail;
    assert s[..6] == "LIMIT ";
    var rest := s[6..];
    assert rest == digits + tail;
    DigitRunOfDigits(digits, tail);
    assert rest[..|digits|] == digits;
    assert rest[|digits|..] == tail;
  }

  lemma ParseOffset(offset: nat)
    requires offset >= 1
    ensures ParseLimitOffset("OFFSET " + Decimal(offset)) == Some((0, offset))
  {
    var s := "OFFSET " + Decimal(offset);
    ValueOfDecimal(offset);
    assert s[..7] == "OFFSET ";
    assert s[..6] != "LIMIT " by { assert s[0] == 'O'; }
    assert s[7..] == Decimal(offset);
  }

  /**
   * The other direction: text that reads as (limit, offset) is exactly the
   * clause formatted from them, so the formatter writes nothing but the
   * four shapes, with the numbers as %d prints them.
   */
  lemma ParseThenFormat(s: string, limit: nat, offset: nat)
    requires ParseLimitOffset(s) == Some((limit, offset))
    ensures FormatLimitOffset(limit, offset) == s
  {
    if s != [] {
      if StartsWith(s, "LIMIT ") {
        LimitThenFormat(s, limit, offset);
      } else {
        assert s == "OFFSET " + s[7..];
        DecimalOfValue(s[7..]);
      }
    }
  }

  lemma LimitThenFormat(s: string, limit: nat, offset: nat)
    requires StartsWith(s, "LIMIT ") && ParseLimitOffset(s) == Some((limit, offset))
    ensures FormatLimitOffset(limit, offset) == s
  {
    var rest := s[6..];
    var k := DigitRun(rest);
    var digits, tail := rest[..k], rest[k..];
    assert s == "LIMIT " + digits + tail by {
      assert s == s[..6] + rest;
      assert rest == digits + tail;
    }
    FormatOfAfterLimit(digits, tail, limit, offset);
  }

  /** What follows "LIMIT " in an accepted clause is what the formatter writes there. */
  lemma FormatOfAfterLimit(digits: string, tail: string, limit: nat, offset: nat)
    requires AllDigits(digits) && AfterLimit(digits, tail) == Some((limit, offset))
    ensures FormatLimitOffset(limit, offset) == "LIMIT " + digits + tail
  {
    DecimalOfValue(digits);
    if tail == [] {
      assert "LIMIT " + digits + tail == "LIMIT " + digits;
    } else {
      var more := tail[8..];
      DecimalOfValue(more);
      assert tail == " OFFSET " + more;
      assert "LIMIT " + digits + tail == "LIMIT " + digits + " OFFSET " + more;
    }
  }

  /** The four cases of the source's own table test. */
  lemma FormatLimitOffsetExamples()
    ensures FormatLimitOffset(0, 0) == ""
    ensures FormatLimitOffset(10, 0) == "LIMIT 10"
    ensures FormatLimitOffset(0, 5) == "OFFSET 5"
    ensures FormatLimitOffset(10, 5) == "LIMIT 10 OFFSET 5"
  {
    assert Decimal(10) == "10";
    assert Decimal(5) == "5";
  }

  /** Text the formatter never writes does not read as a clause. */
  lemma RejectsOtherText()
    ensures ParseLimitOffset("LIMIT 05") == None
    ensures ParseLimitOffset("LIMIT 0") == None
    ensures ParseLimitOffset("LIMIT 5 OFFSET") == None
    ensures ParseLimitOffset("OFFSET 0") == None
  {
    var a := "LIMIT 05";
    assert a[6..][0] == '0' && DigitRun(a[6..]) == 2;
    var b := "LIMIT 0";
    assert b[6..][0] == '0' && DigitRun(b[6..]) == 1;
    var c := "LIMIT 5 OFFSET";
    assert DigitRun(c[6..]) == 1 by { assert c[6..] == "5" + c[7..]; DigitRunOfDigits("5", c[7..]); }
    assert c[7..] != [] && !StartsWith(c[7..], " OFFSET ");
    var d := "OFFSET 0";
    assert d[7..] == "0";
    assert d[..6] != "LIMIT " by { assert d[0] == 'O'; }
  }
}
