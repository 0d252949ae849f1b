/** The `sequences` table: one counter row per (type, year). */
module SequenceRepository {
  import opened Wrappers

  /**
   * A counter row. `paddingLength` is stored (always 4 on creation) but never
   * read back by the generator.
   */
  datatype Sequence = Sequence(
    sequenceType: string,
    year: int,
    currentValue: nat,
    prefix: string,
    paddingLength: int)

  /** The rows, addressed by `findByTypeAndYear`'s two arguments. */
  class Table {
    var counters: map<(string, int), Sequence>

    constructor ()
      ensures counters == map[]
    {
      counters := map[];
    }
  }

  function FindByTypeAndYear(counters: map<(string, int), Sequence>, sequenceType: string, year: int): (r: Option<Sequence>)
    ensures r.Some? <==> (sequenceType, year) in counters
    ensures r.Some? ==> r.value == counters[(sequenceType, year)]
  {
    if (sequenceType, year) in counters then Some(counters[(sequenceType, year)]) else None
  }
}

/**
 * Human-readable codes `PREFIX-YEAR-NNNN`: the counter of (type, year) is
 * incremented and its new value printed with `%04d`.
 */
module SequenceService {
  import opened Wrappers
  import opened SequenceRepository

  const CustomerType := "CUSTOMER"
  const CustomerPrefix := "CLI"
  const CategoryType := "CATEGORY"
  const CategoryPrefix := "CAT"
  const ContactType := "CONTACT"
  const ContactPrefix := "CNT"
  const ProductType := "PRODUCT"
  const ProductPrefix := "PRD"

  /** Width of a newly created counter; `%04d` hard-codes the same 4. */
  const DefaultPadding := 4

  predicate IsDigit(c: char)
  {
    '0' <= c <= '9'
  }

  predicate AllDigits(s: string)
  {
    forall i | 0 <= i < |s| :: IsDigit(s[i])
  }

  function DigitChar(d: nat): char
    requires d < 10
  {
    ('0' as int + d) as char
  }

  function DigitValue(c: char): nat
  {
    if IsDigit(c) then c as int - '0' as int else 0
  }

  /** Decimal text of a non-negative number, without leading zeros. */
  function Digits(n: nat): (r: string)
    ensures |r| >= 1 && AllDigits(r)
  {
    if n < 10 then [DigitChar(n)] else Digits(n / 10) + [DigitChar(n % 10)]
  }

  /** Reads decimal text back, most significant digit first. */
  function ParseDigits(s: string): nat
  {
    if s == [] then 0 else ParseDigits(s[..|s| - 1]) * 10 + DigitValue(s[|s| - 1])
  }

  lemma {:induction false} ParseDigitsOfDigits(n: nat)
    ensures ParseDigits(Digits(n)) == n
  {
    if n >= 10 {
      var d := Digits(n);
      assert d[..|d| - 1] == Digits(n / 10);
      ParseDigitsOfDigits(n / 10);
    }
  }

  function Zeros(k: nat): (r: string)
    ensures |r| == k && AllDigits(r)
  {
    if k == 0 then "" else "0" + Zeros(k - 1)
  }

  lemma {:induction false} LeadingZeroIgnored(s: string)
    ensures ParseDigits("0" + s) == ParseDigits(s)
    decreases |s|
  {
    if s != [] {
      assert ("0" + s)[..|s|] == "0" + s[..|s| - 1];
      LeadingZeroIgnored(s[..|s| - 1]);
    }
  }

  lemma {:induction false} LeadingZerosIgnored(k: nat, s: string)
    ensures ParseDigits(Zeros(k) + s) == ParseDigits(s)
  {
    if k > 0 {
      var rest := Zeros(k - 1) + s;
      assert Zeros(k) + s == "0" + rest;
      LeadingZeroIgnored(rest);
      LeadingZerosIgnored(k - 1, s);
    } else {
      assert Zeros(k) + s == s;
    }
  }

  function Pow10(k: nat): nat
  {
    if k == 0 then 1 else 10 * Pow10(k - 1)
  }

  /** `n` needs at most `k` digits exactly when it is below 10^k. */
  lemma {:induction false} DigitCount(n: nat, k: nat)
    requires k >= 1
    ensures |Digits(n)| <= k <==> n < Pow10(k)
  {
    if n >= 10 {
      if k == 1 {
        assert |Digits(n)| == |Digits(n / 10)| + 1;
      } else {
        DigitCount(n / 10, k - 1);
      }
    } else {
      PowAtLeastTen(k);
    }
  }

  lemma {:induction false} PowAtLeastTen(k: nat)
    requires k >= 1
    ensures Pow10(k) >= 10
  {
    if k > 1 {
      PowAtLeastTen(k - 1);
    }
  }

  /** Java `String.format("%04d", n)` for a non-negative `n`. */
  function ZeroPad4(n: nat): (r: string)
    ensures AllDigits(r)
    ensures |r| == if |Digits(n)| < 4 then 4 else |Digits(n)|
  {
    var d := Digits(n);
    if |d| < 4 then Zeros(4 - |d|) + d else d
  }

  /** Reading the padded text back gives the value: the padding zeros are inert. */
  lemma ZeroPadParses(n: nat)
    ensures ParseDigits(ZeroPad4(n)) == n
  {
    ParseDigitsOfDigits(n);
    var d := Digits(n);
    if |d| < 4 {
      LeadingZerosIgnored(4 - |d|, d);
    }
  }

  /** Padding never merges two counter values. */
  lemma ZeroPadInjective(a: nat, b: nat)
    ensures ZeroPad4(a) == ZeroPad4(b) <==> a == b
  {
    ZeroPadParses(a);
    ZeroPadParses(b);
  }

  /** Values below 10000 print in exactly four digits. */
  lemma ZeroPadWidth(n: nat)
    ensures n < 10000 <==> |ZeroPad4(n)| == 4
  {
    DigitCount(n, 4);
  }

  /** From 10000 on, every digit is kept: the code grows instead of wrapping. */
  lemma ZeroPadKeepsWideValues(n: nat)
    requires n >= 10000
    ensures ZeroPad4(n) == Digits(n) && |ZeroPad4(n)| >= 5
  {
    DigitCount(n, 4);
  }

  /** Java `String.valueOf(int)`. */
  function YearText(year: int): string
  {
    if year < 0 then "-" + Digits(-year) else Digits(year)
  }

  /** `prefix + "-" + year + "-" + String.format("%04d", value)`. */
  function FormatCode(prefix: string, year: int, value: nat): string
  {
    prefix + "-" + YearText(year) + "-" + ZeroPad4(value)
  }

  /** Two codes of one prefix and year coincide only for the same counter value. */
  lemma FormatCodeInjective(prefix: string, year: int, a: nat, b: nat)
    ensures FormatCode(prefix, year, a) == FormatCode(prefix, year, b) <==> a == b
  {
    var head := prefix + "-" + YearText(year) + "-";
    if FormatCode(prefix, year, a) == FormatCode(prefix, year, b) {
      assert FormatCode(prefix, year, a)[|head|..] == ZeroPad4(a);
      assert FormatCode(prefix, year, b)[|head|..] == ZeroPad4(b);
      ZeroPadInjective(a, b);
    }
  }

  /** `getOrCreateSequence`: the stored row, or a fresh one at 0 with the given prefix. */
  function CounterOf(counters: map<(string, int), Sequence>, sequenceType: string, year: int, prefix: string): Sequence
  {
    match FindByTypeAndYear(counters, sequenceType, year)
    case Some(row) => row
    case None => Sequence(sequenceType, year, 0, prefix, DefaultPadding)
  }

  /** The table after one `generateSequentialCode(sequenceType, prefix)` in `year`. */
  function Advance(counters: map<(string, int), Sequence>, sequenceType: string, year: int, prefix: string): map<(string, int), Sequence>
  {
    var row := CounterOf(counters, sequenceType, year, prefix);
    counters[(sequenceType, year) := row.(currentValue := row.currentValue + 1)]
  }

  /** The value the counter of (type, year) holds now; 0 before its row exists. */
  function LastValue(counters: map<(string, int), Sequence>, sequenceType: string, year: int): nat
  {
    if (sequenceType, year) in counters then counters[(sequenceType, year)].currentValue else 0
  }

  /** The code handed out by that call. */
  function NextCode(counters: map<(string, int), Sequence>, sequenceType: string, year: int, prefix: string): string
  {
    FormatCode(prefix, year, LastValue(counters, sequenceType, year) + 1)
  }

  method GenerateSequentialCode(table: Table, sequenceType: string, prefix: string, year: int) returns (code: string)
    modifies table
    ensures table.counters == Advance(old(table.counters), sequenceType, year, prefix)
    ensures code == NextCode(old(table.counters), sequenceType, year, prefix)
  {
    var row;
    var found := FindByTypeAndYear(table.counters, sequenceType, year);
    if found.Some? {
      row := found.value;
    } else {
      row := Sequence(sequenceType, year, 0, prefix, DefaultPadding);
      table.counters := table.counters[(sequenceType, year) := row];
    }
    row := row.(currentValue := row.currentValue + 1);
    table.counters := table.counters[(sequenceType, year) := row];
    code := FormatCode(prefix, year, row.currentValue);
  }

  method GenerateCustomerCode(table: Table, year: int) returns (code: string)
    modifies table
    ensures table.counters == Advance(old(table.counters), CustomerType, year, CustomerPrefix)
    ensures code == NextCode(old(table.counters), CustomerType, year, CustomerPrefix)
  {
    code := GenerateSequentialCode(table, CustomerType, CustomerPrefix, year);
  }

  method GenerateCategoryCode(table: Table, year: int) returns (code: string)
    modifies table
    ensures table.counters == Advance(old(table.counters), CategoryType, year, CategoryPrefix)
    ensures code == NextCode(old(table.counters), CategoryType, year, CategoryPrefix)
  {
    code := GenerateSequentialCode(table, CategoryType, CategoryPrefix, year);
  }

  method GenerateContactCode(table: Table, year: int) returns (code: string)
    modifies table
    ensures table.counters == Advance(old(table.counters), ContactType, year, ContactPrefix)
    ensures code == NextCode(old(table.counters), ContactType, year, ContactPrefix)
  {
    code := GenerateSequentialCode(table, ContactType, ContactPrefix, year);
  }

  /** The counter of (type, year) goes up by exactly one and becomes the printed value. */
  lemma AdvanceIncrements(counters: map<(string, int), Sequence>, sequenceType: string, year: int, prefix: string)
    ensures LastValue(Advance(counters, sequenceType, year, prefix), sequenceType, year)
         == LastValue(counters, sequenceType, year) + 1
    ensures NextCode(counters, sequenceType, year, prefix)
         == FormatCode(prefix, year, LastValue(Advance(counters, sequenceType, year, prefix), sequenceType, year))
  {
  }

  /** No other (type, year) row is created, removed or changed. */
  lemma AdvanceTouchesOneRow(counters: map<(string, int), Sequence>, sequenceType: string, year: int, prefix: string, key: (string, int))
    requires key != (sequenceType, year)
    ensures key in Advance(counters, sequenceType, year, prefix) <==> key in counters
    ensures key in counters ==> Advance(counters, sequenceType, year, prefix)[key] == counters[key]
  {
  }

  /** The first code of a (type, year) ends in 0001; its row stores the prefix, 4 and 1. */
  lemma FirstCodeOfYear(counters: map<(string, int), Sequence>, sequenceType: string, year: int, prefix: string)
    requires (sequenceType, year) !in counters
    ensures NextCode(counters, sequenceType, year, prefix) == prefix + "-" + YearText(year) + "-0001"
    ensures Advance(counters, sequenceType, year, prefix)[(sequenceType, year)]
         == Sequence(sequenceType, year, 1, prefix, 4)
  {
    assert Digits(1) == "1";
    assert Zeros(3) == "000";
  }

  /**
   * The prefix argument does not select the counter: two prefixes on one
   * (type, year) share its numbering, and an existing row keeps the prefix it
   * was created with.
   */
  lemma PrefixDoesNotSelectCounter(counters: map<(string, int), Sequence>, sequenceType: string, year: int, p1: string, p2: string)
    ensures LastValue(Advance(counters, sequenceType, year, p1), sequenceType, year)
         == LastValue(Advance(counters, sequenceType, year, p2), sequenceType, year)
    ensures (sequenceType, year) in counters ==>
      Advance(counters, sequenceType, year, p1) == Advance(counters, sequenceType, year, p2)
  {
  }

  /** A new year starts a fresh counter, whatever earlier years reached. */
  lemma NewYearRestarts(counters: map<(string, int), Sequence>, sequenceType: string, year: int, prefix: string, previous: nat)
    requires (sequenceType, year) !in counters
    requires (sequenceType, year - 1) in counters && counters[(sequenceType, year - 1)].currentValue == previous
    ensures LastValue(Advance(counters, sequenceType, year, prefix), sequenceType, year) == 1
    ensures LastValue(Advance(counters, sequenceType, year, prefix), sequenceType, year - 1) == previous
  {
  }

  /** The counters after `k` successive calls for one (type, year). */
  function Advanced(counters: map<(string, int), Sequence>, sequenceType: string, year: int, prefix: string, k: nat): map<(string, int), Sequence>
    decreases k
  {
    if k == 0 then counters else Advanced(Advance(counters, sequenceType, year, prefix), sequenceType, year, prefix, k - 1)
  }

  /** The codes handed out by `n` successive calls: call `i` sees the counters the first `i` calls left. */
  function Codes(counters: map<(string, int), Sequence>, sequenceType: string, year: int, prefix: string, n: nat): (r: seq<string>)
    ensures |r| == n
  {
    seq(n, i requires 0 <= i < n => NextCode(Advanced(counters, sequenceType, year, prefix, i), sequenceType, year, prefix))
  }

  lemma {:induction false} AdvancedValue(counters: map<(string, int), Sequence>, sequenceType: string, year: int, prefix: string, k: nat)
    ensures LastValue(Advanced(counters, sequenceType, year, prefix, k), sequenceType, year) == LastValue(counters, sequenceType, year) + k
    decreases k
  {
    if k > 0 {
      AdvanceIncrements(counters, sequenceType, year, prefix);
      AdvancedValue(Advance(counters, sequenceType, year, prefix), sequenceType, year, prefix, k - 1);
    }
  }

  /** The `i`-th code carries counter value `LastValue + i + 1`. */
  lemma CodesCount(counters: map<(string, int), Sequence>, sequenceType: string, year: int, prefix: string, n: nat)
    ensures forall i | 0 <= i < n ::
      Codes(counters, sequenceType, year, prefix, n)[i]
        == FormatCode(prefix, year, LastValue(counters, sequenceType, year) + i + 1)
  {
    forall i | 0 <= i < n
      ensures Codes(counters, sequenceType, year, prefix, n)[i]
        == FormatCode(prefix, year, LastValue(counters, sequenceType, year) + i + 1)
    {
      AdvancedValue(counters, sequenceType, year, prefix, i);
    }
  }

  /** However many calls are made in one year, no code is handed out twice. */
  lemma CodesDistinct(counters: map<(string, int), Sequence>, sequenceType: string, year: int, prefix: string, n: nat)
    ensures Distinct(Codes(counters, sequenceType, year, prefix, n))
  {
    var codes := Codes(counters, sequenceType, year, prefix, n);
    var base := LastValue(counters, sequenceType, year) + 1;
    forall i, j | 0 <= i < j < n ensures codes[i] != codes[j] {
      CodeAt(counters, sequenceType, year, prefix, n, i);
      CodeAt(counters, sequenceType, year, prefix, n, j);
      FormatCodeInjective(prefix, year, base + i, base + j);
    }
  }

  /** Call `i` of the run hands out the `i`-th value after the stored one. */
  lemma CodeAt(counters: map<(string, int), Sequence>, sequenceType: string, year: int, prefix: string, n: nat, i: nat)
    requires i < n
    ensures Codes(counters, sequenceType, year, prefix, n)[i]
      == FormatCode(prefix, year, LastValue(counters, sequenceType, year) + 1 + i)
  {
    AdvancedValue(counters, sequenceType, year, prefix, i);
  }

  predicate Distinct(codes: seq<string>)
  {
    forall i, j | 0 <= i < j < |codes| :: codes[i] != codes[j]
  }

  /** The shape the customer integration test expects: `CLI-\d{4}-\d{4}`. */
  predicate MatchesCustomerCodePattern(code: string)
  {
    |code| == 13 && code[..4] == "CLI-" && AllDigits(code[4..8]) && code[8] == '-' && AllDigits(code[9..])
  }

  lemma CustomerCodeShape(counters: map<(string, int), Sequence>, year: int)
    requires 1000 <= year <= 9999
    requires LastValue(counters, CustomerType, year) < 9999
    ensures MatchesCustomerCodePattern(NextCode(counters, CustomerType, year, CustomerPrefix))
  {
    var v := LastValue(counters, CustomerType, year) + 1;
    var y, z := Digits(year), ZeroPad4(v);
    YearWidth(year);
    ZeroPadWidth(v);
    assert NextCode(counters, CustomerType, year, CustomerPrefix) == "CLI-" + y + "-" + z;
    PatternOfParts(y, z);
  }

  lemma YearWidth(year: int)
    requires 1000 <= year <= 9999
    ensures |Digits(year)| == 4
  {
    assert Pow10(4) == 10000 && Pow10(3) == 1000;
    DigitCount(year, 4);
    DigitCount(year, 3);
  }

  lemma PatternOfParts(y: string, z: string)
    requires |y| == 4 && AllDigits(y) && |z| == 4 && AllDigits(z)
    ensures MatchesCustomerCodePattern("CLI-" + y + "-" + z)
  {
    ConcatSlices("CLI-", y, "-", z);
  }

  lemma ConcatSlices(a: string, b: string, c: string, d: string)
    ensures var s := a + b + c + d;
      && s[..|a|] == a
      && s[|a|..|a| + |b|] == b
      && s[|a| + |b|..|a| + |b| + |c|] == c
      && s[|a| + |b| + |c|..] == d
  {
  }
}
