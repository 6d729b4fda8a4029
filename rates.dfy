/** Tax and shipping rates: the ZIP-prefix table, the state tax table, the shipping
    tiers and their composition (backend/app/core/rates.py).
    Money is exact: subtotals and shipping in integer cents, tax rates in
    ten-thousandths (0.0725 is 725), tax amounts as real numbers of cents. */
module Rates {
  import opened Wrappers
  import opened Text

  /** One entry of ZIP_PREFIX_TO_STATE: an inclusive range of 3-digit prefixes. */
  datatype ZipRange = ZipRange(lo: nat, hi: nat, state: string)
  {
    predicate Contains(p: int) { lo <= p <= hi }
  }

  /** The two ValueError messages of the ZIP lookup and of the calculation. */
  datatype ZipError =
    | TooFewDigits   // "ZIP code must be at least 5 digits"
    | InvalidZip     // "Invalid ZIP code"

  /** What calculate_shipping_and_tax returns: (state, tax_rate, shipping_cost,
      tax_amount, shipping_amount, total). */
  datatype Quote = Quote(state: string, taxRate: nat, shippingCost: nat,
                         taxAmount: real, shippingAmount: nat, total: real)

  const Unknown: string := "UNKNOWN"

  /** STATE_TAX_RATES.get(code), in ten-thousandths: a match on the dictionary's keys. */
  function StateTaxRate(code: string): Option<nat>
  {
    match code
    case "AL" => Some(400) case "AK" => Some(0) case "AZ" => Some(560) case "AR" => Some(650) case "CA" => Some(725)
    case "CO" => Some(290) case "CT" => Some(635) case "DE" => Some(0) case "FL" => Some(600) case "GA" => Some(400)
    case "HI" => Some(400) case "ID" => Some(600) case "IL" => Some(625) case "IN" => Some(700) case "IA" => Some(600)
    case "KS" => Some(650) case "KY" => Some(600) case "LA" => Some(445) case "ME" => Some(550) case "MD" => Some(600)
    case "MA" => Some(625) case "MI" => Some(600) case "MN" => Some(688) case "MS" => Some(700) case "MO" => Some(423)
    case "MT" => Some(0) case "NE" => Some(550) case "NV" => Some(685) case "NH" => Some(0) case "NJ" => Some(663)
    case "NM" => Some(513) case "NY" => Some(400) case "NC" => Some(475) case "ND" => Some(500) case "OH" => Some(575)
    case "OK" => Some(450) case "OR" => Some(0) case "PA" => Some(600) case "RI" => Some(700) case "SC" => Some(600)
    case "SD" => Some(450) case "TN" => Some(700) case "TX" => Some(625) case "UT" => Some(610) case "VT" => Some(600)
    case "VA" => Some(530) case "WA" => Some(650) case "WV" => Some(600) case "WI" => Some(500) case "WY" => Some(400)
    case "DC" => Some(600)
    case _ => None
  }

  const ZipTableSize: nat := 53

  /** Entry k of ZIP_PREFIX_TO_STATE, in the order the dictionary literal lists them
      (the last entry is the default case). */
  function ZipEntry(k: int): ZipRange
  {
    match k
    case 0 => ZipRange(350, 369, "AL")
    case 1 => ZipRange(995, 999, "AK")
    case 2 => ZipRange(850, 865, "AZ")
    case 3 => ZipRange(716, 729, "AR")
    case 4 => ZipRange(900, 961, "CA")
    case 5 => ZipRange(800, 816, "CO")
    case 6 => ZipRange(60, 69, "CT")
    case 7 => ZipRange(197, 199, "DE")
    case 8 => ZipRange(320, 349, "FL")
    case 9 => ZipRange(300, 319, "GA")
    case 10 => ZipRange(398, 399, "GA")
    case 11 => ZipRange(967, 968, "HI")
    case 12 => ZipRange(832, 838, "ID")
    case 13 => ZipRange(600, 629, "IL")
    case 14 => ZipRange(460, 479, "IN")
    case 15 => ZipRange(500, 528, "IA")
    case 16 => ZipRange(660, 679, "KS")
    case 17 => ZipRange(400, 427, "KY")
    case 18 => ZipRange(700, 714, "LA")
    case 19 => ZipRange(39, 49, "ME")
    case 20 => ZipRange(206, 219, "MD")
    case 21 => ZipRange(10, 27, "MA")
    case 22 => ZipRange(480, 499, "MI")
    case 23 => ZipRange(550, 567, "MN")
    case 24 => ZipRange(386, 397, "MS")
    case 25 => ZipRange(630, 658, "MO")
    case 26 => ZipRange(590, 599, "MT")
    case 27 => ZipRange(680, 693, "NE")
    case 28 => ZipRange(889, 898, "NV")
    case 29 => ZipRange(30, 38, "NH")
    case 30 => ZipRange(70, 89, "NJ")
    case 31 => ZipRange(870, 884, "NM")
    case 32 => ZipRange(100, 149, "NY")
    case 33 => ZipRange(270, 289, "NC")
    case 34 => ZipRange(580, 588, "ND")
    case 35 => ZipRange(430, 459, "OH")
    case 36 => ZipRange(730, 749, "OK")
    case 37 => ZipRange(970, 979, "OR")
    case 38 => ZipRange(150, 196, "PA")
    case 39 => ZipRange(28, 29, "RI")
    case 40 => ZipRange(290, 299, "SC")
    case 41 => ZipRange(570, 577, "SD")
    case 42 => ZipRange(370, 385, "TN")
    case 43 => ZipRange(750, 799, "TX")
    case 44 => ZipRange(885, 885, "TX")
    case 45 => ZipRange(840, 847, "UT")
    case 46 => ZipRange(50, 59, "VT")
    case 47 => ZipRange(220, 246, "VA")
    case 48 => ZipRange(980, 994, "WA")
    case 49 => ZipRange(247, 268, "WV")
    case 50 => ZipRange(530, 549, "WI")
    case 51 => ZipRange(820, 831, "WY")
    case _ => ZipRange(200, 205, "DC")
  }

  /** ZIP_PREFIX_TO_STATE as a sequence, in dictionary order. */
  function ZipPrefixToState(): seq<ZipRange> { seq(ZipTableSize, ZipEntry) }

  // ------------------------------------------------------------ get_state_from_zip

  /** clean_zip: the digit characters of the input, in order. */
  function Digits(s: string): (d: string)
    ensures |d| <= |s|
    ensures forall i :: 0 <= i < |d| ==> IsDigit(d[i])
  {
    if s == [] then [] else (if IsDigit(s[0]) then [s[0]] else []) + Digits(s[1..])
  }

  /** int(clean_zip[:3]). */
  function Prefix(d: string): (p: nat)
    requires |d| >= 3 && IsDigit(d[0]) && IsDigit(d[1]) && IsDigit(d[2])
    ensures p < 1000
  {
    100 * DigitValue(d[0]) + 10 * DigitValue(d[1]) + DigitValue(d[2])
  }

  /** The first-match loop over the ranges, falling back to UNKNOWN. */
  function FindState(ranges: seq<ZipRange>, p: int): string
  {
    if ranges == [] then Unknown
    else if ranges[0].Contains(p) then ranges[0].state
    else FindState(ranges[1..], p)
  }

  function StateFromZip(zip: string): Result<string, ZipError>
  {
    if |Digits(zip)| < 5 then Failure(TooFewDigits)
    else Success(FindState(ZipPrefixToState(), Prefix(Digits(zip))))
  }

  // ------------------------------------------------------------ get_tax_rate, shipping

  /** STATE_TAX_RATES.get(state.upper(), 0.0). */
  function GetTaxRate(state: string): nat
  {
    match StateTaxRate(ToUpper(state))
    case Some(rate) => rate
    case None => 0
  }

  /** Tiered shipping in cents: free from $50.00, $5.99 from $25.00, else $9.99. */
  function ShippingCost(subtotal: int): nat
  {
    if subtotal >= 5000 then 0
    else if subtotal >= 2500 then 599
    else 999
  }

  /** calculate_shipping_and_tax: an UNKNOWN state becomes an error only here. */
  function CalculateShippingAndTax(zip: string, subtotal: int): Result<Quote, ZipError>
  {
    match StateFromZip(zip)
    case Failure(e) => Failure(e)
    case Success(state) =>
      if state == Unknown then Failure(InvalidZip)
      else
        var rate := GetTaxRate(state);
        var shipping := ShippingCost(subtotal);
        var tax := (subtotal * rate) as real / 10000.0;
        Success(Quote(state, rate, shipping, tax, shipping, subtotal as real + tax + shipping as real))
  }

  // ------------------------------------------------------------ the table's ranges

  predicate Overlap(a: ZipRange, b: ZipRange) { a.lo <= b.hi && b.lo <= a.hi }

  predicate PairwiseDisjoint(ranges: seq<ZipRange>)
  {
    forall i, j :: 0 <= i < |ranges| && 0 <= j < |ranges| && i != j ==> !Overlap(ranges[i], ranges[j])
  }

  /** The index of the range that comes a-th when they are ordered by their lower bound. */
  function ByLo(k: int): nat
  {
    match k
    case 0 => 21
    case 1 => 39
    case 2 => 29
    case 3 => 19
    case 4 => 46
    case 5 => 6
    case 6 => 30
    case 7 => 32
    case 8 => 38
    case 9 => 7
    case 10 => 52
    case 11 => 20
    case 12 => 47
    case 13 => 49
    case 14 => 33
    case 15 => 40
    case 16 => 9
    case 17 => 8
    case 18 => 0
    case 19 => 42
    case 20 => 24
    case 21 => 10
    case 22 => 17
    case 23 => 35
    case 24 => 14
    case 25 => 22
    case 26 => 15
    case 27 => 50
    case 28 => 23
    case 29 => 41
    case 30 => 34
    case 31 => 26
    case 32 => 13
    case 33 => 25
    case 34 => 16
    case 35 => 27
    case 36 => 18
    case 37 => 3
    case 38 => 36
    case 39 => 43
    case 40 => 5
    case 41 => 51
    case 42 => 12
    case 43 => 45
    case 44 => 2
    case 45 => 31
    case 46 => 44
    case 47 => 28
    case 48 => 4
    case 49 => 11
    case 50 => 37
    case 51 => 48
    case _ => 1
  }

  /** The inverse of ByLo: where range k comes in that order. */
  function RankByLo(k: int): nat
  {
    match k
    case 0 => 18
    case 1 => 52
    case 2 => 44
    case 3 => 37
    case 4 => 48
    case 5 => 40
    case 6 => 5
    case 7 => 9
    case 8 => 17
    case 9 => 16
    case 10 => 21
    case 11 => 49
    case 12 => 42
    case 13 => 32
    case 14 => 24
    case 15 => 26
    case 16 => 34
    case 17 => 22
    case 18 => 36
    case 19 => 3
    case 20 => 11
    case 21 => 0
    case 22 => 25
    case 23 => 28
    case 24 => 20
    case 25 => 33
    case 26 => 31
    case 27 => 35
    case 28 => 47
    case 29 => 2
    case 30 => 6
    case 31 => 45
    case 32 => 7
    case 33 => 14
    case 34 => 30
    case 35 => 23
    case 36 => 38
    case 37 => 50
    case 38 => 8
    case 39 => 1
    case 40 => 15
    case 41 => 29
    case 42 => 19
    case 43 => 39
    case 44 => 46
    case 45 => 43
    case 46 => 4
    case 47 => 12
    case 48 => 51
    case 49 => 13
    case 50 => 27
    case 51 => 41
    case _ => 10
  }

  lemma RankInverse()
    ensures forall k :: 0 <= k < ZipTableSize ==> RankByLo(k) < ZipTableSize && ByLo(RankByLo(k)) == k
  {
  }

  lemma RangeProper(k: nat)
    requires k < ZipTableSize
    ensures ZipEntry(k).lo <= ZipEntry(k).hi
  {
    match k
    case 0 =>
    case 1 =>
    case 2 =>
    case 3 =>
    case 4 =>
    case 5 =>
    case 6 =>
    case 7 =>
    case 8 =>
    case 9 =>
    case 10 =>
    case 11 =>
    case 12 =>
    case 13 =>
    case 14 =>
    case 15 =>
    case 16 =>
    case 17 =>
    case 18 =>
    case 19 =>
    case 20 =>
    case 21 =>
    case 22 =>
    case 23 =>
    case 24 =>
    case 25 =>
    case 26 =>
    case 27 =>
    case 28 =>
    case 29 =>
    case 30 =>
    case 31 =>
    case 32 =>
    case 33 =>
    case 34 =>
    case 35 =>
    case 36 =>
    case 37 =>
    case 38 =>
    case 39 =>
    case 40 =>
    case 41 =>
    case 42 =>
    case 43 =>
    case 44 =>
    case 45 =>
    case 46 =>
    case 47 =>
    case 48 =>
    case 49 =>
    case 50 =>
    case 51 =>
    case _ =>
  }

  /** In lower-bound order, each range ends before the next begins. */
  lemma AdjacentSeparated(a: nat)
    requires a < ZipTableSize - 1
    ensures ZipEntry(ByLo(a)).hi < ZipEntry(ByLo(a + 1)).lo
  {
    match a
    case 0 =>
    case 1 =>
    case 2 =>
    case 3 =>
    case 4 =>
    case 5 =>
    case 6 =>
    case 7 =>
    case 8 =>
    case 9 =>
    case 10 =>
    case 11 =>
    case 12 =>
    case 13 =>
    case 14 =>
    case 15 =>
    case 16 =>
    case 17 =>
    case 18 =>
    case 19 =>
    case 20 =>
    case 21 =>
    case 22 =>
    case 23 =>
    case 24 =>
    case 25 =>
    case 26 =>
    case 27 =>
    case 28 =>
    case 29 =>
    case 30 =>
    case 31 =>
    case 32 =>
    case 33 =>
    case 34 =>
    case 35 =>
    case 36 =>
    case 37 =>
    case 38 =>
    case 39 =>
    case 40 =>
    case 41 =>
    case 42 =>
    case 43 =>
    case 44 =>
    case 45 =>
    case 46 =>
    case 47 =>
    case 48 =>
    case 49 =>
    case 50 =>
    case _ =>
  }

  /** Proper ranges, each ending before the next begins, are separated pairwise. */
  lemma {:induction false} ChainSeparated(rs: seq<ZipRange>, a: nat, b: nat)
    requires forall x :: 0 <= x < |rs| ==> rs[x].lo <= rs[x].hi
    requires forall x :: 0 <= x < |rs| - 1 ==> rs[x].hi < rs[x + 1].lo
    requires a < b < |rs|
    ensures rs[a].hi < rs[b].lo
    decreases b - a
  {
    if a + 1 < b {
      ChainSeparated(rs, a + 1, b);
    }
  }

  /** The ranges ordered by their lower bound. */
  function SortedRanges(): (rs: seq<ZipRange>)
    ensures |rs| == ZipTableSize
  {
    seq(ZipTableSize, x => ZipEntry(ByLo(x)))
  }

  lemma SortedProper()
    ensures forall x :: 0 <= x < |SortedRanges()| ==> SortedRanges()[x].lo <= SortedRanges()[x].hi
  {
    forall x | 0 <= x < ZipTableSize
      ensures SortedRanges()[x].lo <= SortedRanges()[x].hi
    {
      RangeProper(ByLo(x));
    }
  }

  lemma SortedChained()
    ensures forall x :: 0 <= x < |SortedRanges()| - 1 ==> SortedRanges()[x].hi < SortedRanges()[x + 1].lo
  {
    forall x | 0 <= x < ZipTableSize - 1
      ensures SortedRanges()[x].hi < SortedRanges()[x + 1].lo
    {
      AdjacentSeparated(x);
    }
  }

  lemma Separated(a: nat, b: nat)
    requires a < b < ZipTableSize
    ensures ZipEntry(ByLo(a)).hi < ZipEntry(ByLo(b)).lo
  {
    SortedProper();
    SortedChained();
    ChainSeparated(SortedRanges(), a, b);
  }

  /** No two ranges of ZIP_PREFIX_TO_STATE share a prefix. */
  lemma TableDisjoint()
    ensures PairwiseDisjoint(ZipPrefixToState())
  {
    var table := ZipPrefixToState();
    RankInverse();
    forall i, j | 0 <= i < |table| && 0 <= j < |table| && i != j
      ensures !Overlap(table[i], table[j])
    {
      var ri, rj := RankByLo(i), RankByLo(j);
      assert ByLo(ri) == i && ByLo(rj) == j;
      if ri < rj {
        Separated(ri, rj);
      } else {
        Separated(rj, ri);
      }
    }
  }

  // ------------------------------------------------------------ digit filtering

  lemma {:induction false} DigitsAppend(s: string, t: string)
    ensures Digits(s + t) == Digits(s) + Digits(t)
  {
    if s == [] {
      assert s + t == t;
    } else {
      assert (s + t)[1..] == s[1..] + t;
      DigitsAppend(s[1..], t);
    }
  }

  /** get_state_from_zip raises exactly when fewer than five digits remain. */
  lemma StateFromZipFails(zip: string)
    ensures StateFromZip(zip).Failure? <==> |Digits(zip)| < 5
    ensures StateFromZip(zip).Failure? ==> StateFromZip(zip).error == TooFewDigits
  {
  }

  /** A non-digit character anywhere in the input never changes the answer. */
  lemma NonDigitIgnored(before: string, c: char, after: string)
    requires !IsDigit(c)
    ensures StateFromZip(before + [c] + after) == StateFromZip(before + after)
  {
    DigitsAppend(before + [c], after);
    DigitsAppend(before, [c]);
    DigitsAppend(before, after);
  }

  /** Whatever follows five digits never changes the answer ("90210-1234" is "90210"). */
  lemma TrailingIgnored(zip: string, rest: string)
    requires |Digits(zip)| >= 5
    ensures StateFromZip(zip + rest) == StateFromZip(zip)
  {
    DigitsAppend(zip, rest);
  }

  // ------------------------------------------------------------ the first-match lookup

  lemma {:induction false} FindStateNone(ranges: seq<ZipRange>, p: int)
    requires forall k :: 0 <= k < |ranges| ==> !ranges[k].Contains(p)
    ensures FindState(ranges, p) == Unknown
  {
    if ranges != [] {
      assert forall k :: 0 <= k < |ranges| - 1 ==> ranges[1..][k] == ranges[k + 1];
      FindStateNone(ranges[1..], p);
    }
  }

  lemma {:induction false} FindStateFirst(ranges: seq<ZipRange>, p: int, k: nat)
    requires k < |ranges| && ranges[k].Contains(p)
    requires forall j :: 0 <= j < k ==> !ranges[j].Contains(p)
    ensures FindState(ranges, p) == ranges[k].state
  {
    if k > 0 {
      assert forall j :: 0 <= j < k - 1 ==> ranges[1..][j] == ranges[j + 1];
      FindStateFirst(ranges[1..], p, k - 1);
    }
  }

  /** Some range holding p is the one whose state is returned. */
  lemma {:induction false} FindStateSome(ranges: seq<ZipRange>, p: int, m: nat)
    requires m < |ranges| && ranges[m].Contains(p)
    ensures exists f :: 0 <= f <= m && ranges[f].Contains(p) && FindState(ranges, p) == ranges[f].state
  {
    if !ranges[0].Contains(p) {
      FindStateSome(ranges[1..], p, m - 1);
      var f :| 0 <= f <= m - 1 && ranges[1..][f].Contains(p) && FindState(ranges[1..], p) == ranges[1..][f].state;
      assert ranges[f + 1] == ranges[1..][f];
    }
  }

  /** Over disjoint ranges, the range that holds p decides, wherever it stands. */
  lemma FindStateDisjoint(ranges: seq<ZipRange>, p: int, k: nat)
    requires PairwiseDisjoint(ranges) && k < |ranges| && ranges[k].Contains(p)
    ensures FindState(ranges, p) == ranges[k].state
  {
    forall j | 0 <= j < k
      ensures !ranges[j].Contains(p)
    {
      assert !Overlap(ranges[j], ranges[k]);
    }
    FindStateFirst(ranges, p, k);
  }

  /** Over a pairwise-disjoint list of ranges, reordering the list changes no lookup. */
  lemma FindStateReordered(table: seq<ZipRange>, ranges: seq<ZipRange>, p: int)
    requires PairwiseDisjoint(table) && multiset(ranges) == multiset(table)
    ensures FindState(ranges, p) == FindState(table, p)
  {
    if k :| 0 <= k < |table| && table[k].Contains(p) {
      FindStateDisjoint(table, p, k);
      assert table[k] in multiset(ranges);
      var m :| 0 <= m < |ranges| && ranges[m] == table[k];
      FindStateSome(ranges, p, m);
      var f :| 0 <= f <= m && ranges[f].Contains(p) && FindState(ranges, p) == ranges[f].state;
      assert ranges[f] in multiset(table);
      var j :| 0 <= j < |table| && table[j] == ranges[f];
      assert Overlap(table[j], table[k]);
    } else {
      FindStateNone(table, p);
      forall m | 0 <= m < |ranges|
        ensures !ranges[m].Contains(p)
      {
        assert ranges[m] in multiset(table);
        var j :| 0 <= j < |table| && table[j] == ranges[m];
      }
      FindStateNone(ranges, p);
    }
  }

  /** Because the ranges are disjoint, any reordering of ZIP_PREFIX_TO_STATE
      gives every prefix the same state. */
  lemma LookupIgnoresOrder(ranges: seq<ZipRange>, p: int)
    requires multiset(ranges) == multiset(ZipPrefixToState())
    ensures FindState(ranges, p) == FindState(ZipPrefixToState(), p)
  {
    TableDisjoint();
    FindStateReordered(ZipPrefixToState(), ranges, p);
  }

  /** The state of a ZIP with five digits is that of the range holding its 3-digit
      prefix, or UNKNOWN when no range holds it. */
  lemma StateFromZipSpec(zip: string)
    requires |Digits(zip)| >= 5
    ensures forall k :: 0 <= k < ZipTableSize && ZipEntry(k).Contains(Prefix(Digits(zip))) ==>
              StateFromZip(zip) == Success(ZipEntry(k).state)
    ensures (forall k :: 0 <= k < ZipTableSize ==> !ZipEntry(k).Contains(Prefix(Digits(zip)))) ==>
              StateFromZip(zip) == Success(Unknown)
  {
    var table := ZipPrefixToState();
    var p := Prefix(Digits(zip));
    TableDisjoint();
    forall k | 0 <= k < ZipTableSize && ZipEntry(k).Contains(p)
      ensures StateFromZip(zip) == Success(ZipEntry(k).state)
    {
      FindStateDisjoint(table, p, k);
    }
    if forall k :: 0 <= k < ZipTableSize ==> !ZipEntry(k).Contains(p) {
      FindStateNone(table, p);
    }
  }

  lemma {:induction false} DigitsOfDigits(s: string)
    requires forall i :: 0 <= i < |s| ==> IsDigit(s[i])
    ensures Digits(s) == s
  {
    if s != [] {
      DigitsOfDigits(s[1..]);
    }
  }

  /** A ZIP whose 3-digit prefix lies in table entry k has that entry's state. */
  lemma StateFromZipAt(zip: string, k: nat)
    requires |Digits(zip)| >= 5 && k < ZipTableSize && ZipEntry(k).Contains(Prefix(Digits(zip)))
    ensures StateFromZip(zip) == Success(ZipEntry(k).state)
  {
    StateFromZipSpec(zip);
  }

  lemma MassachusettsExample()
    ensures StateFromZip("02134") == Success("MA")
  {
    DigitsOfDigits("02134");
    assert Prefix("02134") == 21;
    StateFromZipAt("02134", 21);
  }

  lemma BeverlyHillsExample()
    ensures StateFromZip("90210") == Success("CA")
  {
    DigitsOfDigits("90210");
    assert Prefix("90210") == 902;
    StateFromZipAt("90210", 4);
  }

  lemma CaliforniaExample()
    ensures StateFromZip("90210") == Success("CA")
    ensures StateFromZip("90210-1234") == Success("CA")
  {
    BeverlyHillsExample();
    TrailingIgnored("90210", "-1234");
  }


  lemma TooShortExample()
    ensures StateFromZip("9021") == Failure(TooFewDigits)
    ensures StateFromZip("902-1") == Failure(TooFewDigits)
  {
    DigitsOfDigits("9021");
    assert "902-1" == "902" + ['-'] + "1";
    NonDigitIgnored("902", '-', "1");
  }

  /** No range starts below 010, the lower bound of Massachusetts. */
  lemma LowestPrefix(k: nat)
    requires k < ZipTableSize
    ensures ZipEntry(k).lo >= 10
  {
    SortedProper();
    SortedChained();
    RankInverse();
    if RankByLo(k) > 0 {
      ChainSeparated(SortedRanges(), 0, RankByLo(k));
    }
  }

  /** A prefix no range holds gives UNKNOWN rather than an error. */
  lemma UnknownPrefixExample()
    ensures StateFromZip("00000") == Success(Unknown)
  {
    DigitsOfDigits("00000");
    forall k | 0 <= k < ZipTableSize
      ensures !ZipEntry(k).Contains(0)
    {
      LowestPrefix(k);
    }
    StateFromZipSpec("00000");
  }

  /** Texas is the one state with two ranges. */
  lemma DallasExample()
    ensures StateFromZip("75001") == Success("TX")
  {
    DigitsOfDigits("75001");
    assert Prefix("75001") == 750;
    StateFromZipAt("75001", 43);
  }

  lemma ElPasoExample()
    ensures StateFromZip("88510") == Success("TX")
  {
    DigitsOfDigits("88510");
    assert Prefix("88510") == 885;
    StateFromZipAt("88510", 44);
  }

  /** Texas is split over two ranges; both give TX. */
  lemma TexasExamples()
    ensures StateFromZip("75001") == Success("TX") && StateFromZip("88510") == Success("TX")
  {
    DallasExample();
    ElPasoExample();
  }



  // ------------------------------------------------------------ tax rates

  /** Every rate of STATE_TAX_RATES lies in [0, 0.0725]; California's is the largest. */
  lemma TaxTableBounds(code: string)
    ensures StateTaxRate("CA") == Some(725)
    ensures StateTaxRate(code).Some? ==> StateTaxRate(code).value <= 725
  {
  }

  /** get_tax_rate is the table's rate for the upper-cased code, and 0 for anything unmapped. */
  lemma GetTaxRateSpec(state: string)
    ensures GetTaxRate(state) <= 725
    ensures GetTaxRate(state) == GetTaxRate(ToUpper(state))
    ensures StateTaxRate(ToUpper(state)).None? ==> GetTaxRate(state) == 0
  {
    ToUpperIdempotent(state);
  }

  lemma TaxRateExamples()
    ensures GetTaxRate("ca") == 725 && GetTaxRate("Mn") == 688
  {
    assert ToUpper("ca") == "CA";
    assert ToUpper("Mn") == "MN";
  }

  /** Oregon is listed with a zero rate; an unmapped code falls back to zero. */
  lemma UntaxedExamples()
    ensures GetTaxRate("or") == 0 && GetTaxRate("XX") == 0
  {
    assert ToUpper("or") == "OR";
    assert ToUpper("XX") == "XX";
  }

  lemma UnknownUntaxed()
    ensures GetTaxRate(Unknown) == 0
  {
    assert ToUpper(Unknown) == Unknown;
  }

  // ------------------------------------------------------------ shipping

  /** Lower bounds of the tiers are inclusive. */
  lemma ShippingBoundaries()
    ensures ShippingCost(2499) == 999 && ShippingCost(2500) == 599
    ensures ShippingCost(4999) == 599 && ShippingCost(5000) == 0
  {
  }

  /** Spending more never costs more shipping. */
  lemma ShippingNonIncreasing(a: int, b: int)
    requires a <= b
    ensures ShippingCost(b) <= ShippingCost(a)
  {
  }

  // ------------------------------------------------------------ the composition

  /** calculate_shipping_and_tax fails exactly when the lookup raises or yields UNKNOWN. */
  lemma CalculateFails(zip: string, subtotal: int)
    ensures CalculateShippingAndTax(zip, subtotal).Failure? <==>
              (|Digits(zip)| < 5 || StateFromZip(zip) == Success(Unknown))
    ensures CalculateShippingAndTax(zip, subtotal).Failure? ==>
              CalculateShippingAndTax(zip, subtotal).error == (if |Digits(zip)| < 5 then TooFewDigits else InvalidZip)
  {
  }

  /** A quote carries the looked-up state, its rate, the tier's shipping and
      total = subtotal + subtotal * rate + shipping. */
  lemma CalculateQuote(zip: string, subtotal: int)
    requires CalculateShippingAndTax(zip, subtotal).Success?
    ensures var q := CalculateShippingAndTax(zip, subtotal).value;
      && StateFromZip(zip) == Success(q.state) && q.state != Unknown
      && q.taxRate == GetTaxRate(q.state)
      && q.shippingCost == q.shippingAmount == ShippingCost(subtotal)
      && q.taxAmount == (subtotal * q.taxRate) as real / 10000.0
      && q.total == subtotal as real + q.taxAmount + q.shippingAmount as real
  {
  }

  /** For a non-negative subtotal the tax is at most 7.25% of it and the total is at least it. */
  lemma CalculateBounds(zip: string, subtotal: int)
    requires subtotal >= 0
    requires CalculateShippingAndTax(zip, subtotal).Success?
    ensures var q := CalculateShippingAndTax(zip, subtotal).value;
      && 0.0 <= q.taxAmount <= (subtotal * 725) as real / 10000.0
      && q.total >= subtotal as real
  {
    var q := CalculateShippingAndTax(zip, subtotal).value;
    CalculateQuote(zip, subtotal);
    GetTaxRateSpec(q.state);
    QuoteArithmetic(subtotal, q.taxRate, q.shippingAmount);
  }

  lemma QuoteArithmetic(subtotal: nat, rate: nat, shipping: nat)
    requires rate <= 725
    ensures 0.0 <= (subtotal * rate) as real / 10000.0 <= (subtotal * 725) as real / 10000.0
    ensures subtotal as real + (subtotal * rate) as real / 10000.0 + shipping as real >= subtotal as real
  {
    assert subtotal * rate <= subtotal * 725;
  }

  lemma InvalidZipExample()
    ensures CalculateShippingAndTax("00000", 1000) == Failure(InvalidZip)
  {
    UnknownPrefixExample();
  }

  lemma ShortZipExample()
    ensures CalculateShippingAndTax("9021", 1000) == Failure(TooFewDigits)
  {
    TooShortExample();
  }

  /** $100.00 to 90210: 7.25% tax, free shipping. */
  lemma CaliforniaQuoteExample()
    ensures CalculateShippingAndTax("90210", 10000) == Success(Quote("CA", 725, 0, 725.0, 0, 10725.0))
  {
    BeverlyHillsExample();
    assert ToUpper("CA") == "CA";
  }
}
