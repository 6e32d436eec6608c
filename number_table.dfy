/**
 * The problem-letter to problem-number table built by
 * `SubmittedCodesDownloader._init_long_contest_number_dict`: for each index
 * i in 0..200 the letter code of i ("a".."z", then "aa", "ab", ...) maps to
 * i + 1 written with three digits ("001".."201").
 */
module LongContestNumbers {
  import opened Wrappers
  import opened Decimal

  const NumAlphabets: nat := 26
  const MaxProblemPerContest: nat := 201

  /**
   * The letter code of index i: a base-26 pair of letters, whose leading
   * character is dropped when it would be the backquote that precedes 'a'.
   */
  function Key(i: nat): string
    requires i < MaxProblemPerContest
  {
    var firstChr := (i / NumAlphabets + 'a' as int - 1) as char;
    var secondChr := (i % NumAlphabets + 'a' as int) as char;
    (if firstChr == '`' then "" else [firstChr]) + [secondChr]
  }

  /** The table value of index i: `f"{i + 1}".zfill(3)`. */
  function Number(i: nat): string {
    ZFill(Digits(i + 1), 3)
  }

  function LetterValue(c: char): nat
    requires 'a' <= c <= 'z'
  {
    c as int - 'a' as int
  }

  /** Reads a letter code back to its index; None for anything else. */
  function KeyIndex(k: string): Option<nat> {
    if |k| == 1 && 'a' <= k[0] <= 'z' then
      Some(LetterValue(k[0]))
    else if |k| == 2 && 'a' <= k[0] <= 'z' && 'a' <= k[1] <= 'z' then
      Some((LetterValue(k[0]) + 1) * NumAlphabets + LetterValue(k[1]))
    else
      None
  }

  /**
   * The index of the last iteration among the first n. The table below
   * recurses through it rather than through `n - 1`, so that a table of
   * constant size is unfolded on demand instead of all at once.
   */
  function Prev(n: nat): nat
    requires n > 0
  {
    n - 1
  }

  /** The dictionary after the first n iterations of the loop. */
  function TableUpTo(n: nat): map<string, string>
    requires n <= MaxProblemPerContest
  {
    if n == 0 then map[] else var i := Prev(n); TableUpTo(i)[Key(i) := Number(i)]
  }

  /** `problem_id_to_number_dict` once the loop has finished. */
  function NumberTable(): map<string, string> {
    TableUpTo(MaxProblemPerContest)
  }

  /** Builds the table as the source does, one index at a time. */
  method InitLongContestNumberDict() returns (table: map<string, string>)
    ensures table == NumberTable()
  {
    table := map[];
    for i := 0 to MaxProblemPerContest
      invariant table == TableUpTo(i)
    {
      var firstChr := (i / NumAlphabets + 'a' as int - 1) as char;
      var secondChr := (i % NumAlphabets + 'a' as int) as char;
      var key := (if firstChr == '`' then "" else [firstChr]) + [secondChr];
      var number := ZFill(Digits(i + 1), 3);
      assert key == Key(i) && number == Number(i);
      table := table[key := number];
    }
  }

  /** A key is one lowercase letter below index 26 and two from 26 on. */
  lemma KeyShape(i: nat)
    requires i < MaxProblemPerContest
    ensures |Key(i)| == if i < NumAlphabets then 1 else 2
    ensures forall j :: 0 <= j < |Key(i)| ==> 'a' <= Key(i)[j] <= 'z'
  {
  }

  /** Decoding a key gives back its index. */
  lemma KeyRoundTrip(i: nat)
    requires i < MaxProblemPerContest
    ensures KeyIndex(Key(i)) == Some(i)
  {
    var q, r := i / NumAlphabets, i % NumAlphabets;
    assert i == q * NumAlphabets + r;
  }

  /** Encoding a decoded index gives back the key. */
  lemma IndexRoundTrip(k: string)
    requires KeyIndex(k).Some? && KeyIndex(k).value < MaxProblemPerContest
    ensures Key(KeyIndex(k).value) == k
  {
    var i := KeyIndex(k).value;
    if |k| == 2 {
      var a, b := LetterValue(k[0]), LetterValue(k[1]);
      assert i == (a + 1) * NumAlphabets + b;
      assert i / NumAlphabets == a + 1 && i % NumAlphabets == b;
    }
  }

  /** Distinct indices have distinct keys. */
  lemma KeyInjective(i: nat, j: nat)
    requires i < MaxProblemPerContest && j < MaxProblemPerContest
    ensures Key(i) == Key(j) ==> i == j
  {
    KeyRoundTrip(i);
    KeyRoundTrip(j);
  }

  /** The value of index i is three digits that read back as i + 1. */
  lemma NumberShape(i: nat)
    requires i < MaxProblemPerContest
    ensures |Number(i)| == 3 && IsDigits(Number(i)) && Value(Number(i)) == i + 1
  {
    DigitsBelowThousand(i + 1);
    ValueOfZFill(i + 1, 3);
  }

  /** After n iterations every key of the table decodes to an index below n. */
  lemma {:induction false} TableUpToKey(n: nat, k: string)
    requires n <= MaxProblemPerContest
    requires k in TableUpTo(n)
    ensures KeyIndex(k).Some? && KeyIndex(k).value < n
  {
    var i := Prev(n);
    if k == Key(i) {
      KeyRoundTrip(i);
    } else {
      TableUpToKey(i, k);
    }
  }

  /** After n iterations the key of each index below n maps to its number. */
  lemma {:induction false} TableUpToValue(n: nat, i: nat)
    requires i < n <= MaxProblemPerContest
    ensures Key(i) in TableUpTo(n) && TableUpTo(n)[Key(i)] == Number(i)
  {
    var j := Prev(n);
    if i < j {
      KeyInjective(i, j);
      TableUpToValue(j, i);
    }
  }

  /** After n iterations the table has n entries: no iteration overwrites an earlier key. */
  lemma {:induction false} TableUpToSize(n: nat)
    requires n <= MaxProblemPerContest
    ensures |TableUpTo(n)| == n
  {
    if n > 0 {
      var i := Prev(n);
      TableUpToSize(i);
      var prev, key := TableUpTo(i), Key(i);
      if key in prev {
        TableUpToKey(i, key);
        KeyRoundTrip(i);
        assert false;
      }
      assert TableUpTo(n) == prev[key := Number(i)];
    }
  }

  /** The finished table has 201 entries, key i holding the number i + 1. */
  lemma NumberTableSpec()
    ensures |NumberTable()| == MaxProblemPerContest
    ensures forall i :: 0 <= i < MaxProblemPerContest ==> Key(i) in NumberTable() && NumberTable()[Key(i)] == Number(i)
  {
    forall i | 0 <= i < MaxProblemPerContest
      ensures Key(i) in NumberTable() && NumberTable()[Key(i)] == Number(i)
    {
      TableUpToValue(MaxProblemPerContest, i);
    }
    TableUpToSize(MaxProblemPerContest);
  }

  /**
   * Lookup in the finished table: a string is a key exactly when it is the
   * letter code of an index below 201, and it then maps to three digits
   * whose value is that index plus one.
   */
  lemma NumberTableLookup(k: string)
    ensures k in NumberTable() <==> KeyIndex(k).Some? && KeyIndex(k).value < MaxProblemPerContest
    ensures k in NumberTable() ==>
              NumberTable()[k] == Number(KeyIndex(k).value) &&
              |NumberTable()[k]| == 3 && IsDigits(NumberTable()[k]) &&
              Value(NumberTable()[k]) == KeyIndex(k).value + 1
  {
    if k in NumberTable() {
      TableUpToKey(MaxProblemPerContest, k);
    }
    if KeyIndex(k).Some? && KeyIndex(k).value < MaxProblemPerContest {
      IndexRoundTrip(k);
      TableUpToValue(MaxProblemPerContest, KeyIndex(k).value);
      NumberShape(KeyIndex(k).value);
    }
  }

  /** No two keys share a number. */
  lemma NumberTableInjective(k1: string, k2: string)
    ensures k1 in NumberTable() && k2 in NumberTable() && NumberTable()[k1] == NumberTable()[k2] ==> k1 == k2
  {
    if k1 in NumberTable() && k2 in NumberTable() && NumberTable()[k1] == NumberTable()[k2] {
      NumberTableLookup(k1);
      NumberTableLookup(k2);
      IndexRoundTrip(k1);
      IndexRoundTrip(k2);
    }
  }

  /** The entries the repository's tests check, and the last one. */
  lemma NumberTableExamples()
    ensures "a" in NumberTable() && NumberTable()["a"] == "001"
    ensures "z" in NumberTable() && NumberTable()["z"] == "026"
    ensures "aa" in NumberTable() && NumberTable()["aa"] == "027"
    ensures "az" in NumberTable() && NumberTable()["az"] == "052"
    ensures "gs" in NumberTable() && NumberTable()["gs"] == "201"
  {
    KeyExamples();
    NumberExamples();
    TableUpToValue(MaxProblemPerContest, 0);
    TableUpToValue(MaxProblemPerContest, 25);
    TableUpToValue(MaxProblemPerContest, 26);
    TableUpToValue(MaxProblemPerContest, 51);
    TableUpToValue(MaxProblemPerContest, 200);
  }

  lemma KeyExamples()
    ensures Key(0) == "a" && Key(25) == "z" && Key(26) == "aa" && Key(51) == "az" && Key(200) == "gs"
  {
  }

  lemma NumberExamples()
    ensures Number(0) == "001" && Number(25) == "026" && Number(26) == "027"
    ensures Number(51) == "052" && Number(200) == "201"
  {
    assert Zeros(1) == "0" && Zeros(2) == "00";
    assert Digits(20) == "20";
  }
}
