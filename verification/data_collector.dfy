/** The FizzBuzz log generator of data-collector.py (`parse_app_log`): iteration
    `cnt` writes the line `[cnt] fizzbuzz|fizz|buzz|-`, then looks for the words
    inside that line to bump one of three counters, and emits the counters with a
    timestamp. The clock is an input: `clock[i]` is `time.time()` at iteration i;
    the file write and the half-second sleep are not modelled. */
module DataCollector {
  import opened Text

  /** `var_counts` */
  datatype Counts = Counts(fizz: nat, buzz: nat, fizzbuzz: nat)

  /** One emitted JSON object: `{'unixtime': ts} | var_counts`. */
  datatype Record = Record(unixtime: real, fizz: nat, buzz: nat, fizzbuzz: nat)

  /** The generated line for iteration `cnt`. */
  function LineFor(cnt: nat): string {
    var word :=
      if cnt % 3 == 0 && cnt % 5 == 0 then "fizzbuzz"
      else if cnt % 3 == 0 then "fizz"
      else if cnt % 5 == 0 then "buzz"
      else "-";
    "[" + NatToString(cnt) + "] " + word
  }

  /** The counter update: a substring test on the line, fizzbuzz first. */
  function Tally(c: Counts, line: string): Counts {
    if Contains(line, "fizzbuzz") then c.(fizzbuzz := c.fizzbuzz + 1)
    else if Contains(line, "fizz") then c.(fizz := c.fizz + 1)
    else if Contains(line, "buzz") then c.(buzz := c.buzz + 1)
    else c
  }

  function Emit(unixtime: real, c: Counts): Record {
    Record(unixtime, c.fizz, c.buzz, c.fizzbuzz)
  }

  /** The `while True` loop from iteration `cnt` with counters `c`, run for
      `|clock|` iterations. */
  function Loop(cnt: nat, c: Counts, clock: seq<real>): (records: seq<Record>)
    ensures |records| == |clock|
    decreases |clock|
  {
    if clock == [] then []
    else
      var c' := Tally(c, LineFor(cnt));
      [Emit(clock[0], c')] + Loop(cnt + 1, c', clock[1..])
  }

  /** `parse_app_log`: counters start at zero and `cnt` at 0. */
  function ParseAppLog(clock: seq<real>): seq<Record> {
    Loop(0, Counts(0, 0, 0), clock)
  }

  // ---------------------------------------------------------------------------
  // The substring tests agree with the arithmetic that chose the word.

  lemma AbsentFirstChar(s: string, sub: string)
    requires sub != []
    requires forall i :: 0 <= i < |s| ==> s[i] != sub[0]
    ensures !Contains(s, sub)
  {
    forall i | 0 <= i <= |s| - |sub|
      ensures !OccursAt(s, sub, i)
    {
      assert s[i..i + |sub|][0] == s[i];
    }
  }

  /** When the prefix lacks the first character of `sub`, an occurrence can only
      lie in the word after it. */
  lemma ContainsPastPrefix(prefix: string, word: string, sub: string)
    requires sub != []
    requires forall i :: 0 <= i < |prefix| ==> prefix[i] != sub[0]
    ensures Contains(prefix + word, sub) <==> Contains(word, sub)
  {
    var s := prefix + word;
    if Contains(s, sub) {
      var i :| 0 <= i <= |s| - |sub| && OccursAt(s, sub, i);
      assert s[i..i + |sub|][0] == s[i];
      assert i >= |prefix|;
      assert word[i - |prefix|..i - |prefix| + |sub|] == s[i..i + |sub|];
      assert OccursAt(word, sub, i - |prefix|);
    }
    if Contains(word, sub) {
      var j :| 0 <= j <= |word| - |sub| && OccursAt(word, sub, j);
      assert s[j + |prefix|..j + |prefix| + |sub|] == word[j..j + |sub|];
      assert OccursAt(s, sub, j + |prefix|);
    }
  }

  lemma WordFacts()
    ensures Contains("fizzbuzz", "fizzbuzz")
    ensures !Contains("fizz", "fizzbuzz") && Contains("fizz", "fizz")
    ensures !Contains("buzz", "fizzbuzz") && !Contains("buzz", "fizz") && Contains("buzz", "buzz")
    ensures !Contains("-", "fizzbuzz") && !Contains("-", "fizz") && !Contains("-", "buzz")
  {
    assert OccursAt("fizzbuzz", "fizzbuzz", 0);
    assert OccursAt("fizz", "fizz", 0);
    assert OccursAt("buzz", "buzz", 0);
    AbsentFirstChar("buzz", "fizz");
    AbsentFirstChar("-", "fizzbuzz");
    AbsentFirstChar("-", "fizz");
    AbsentFirstChar("-", "buzz");
  }

  /** One iteration bumps `fizzbuzz` for multiples of 15, otherwise `fizz` for
      multiples of 3, otherwise `buzz` for multiples of 5, and nothing else. */
  lemma {:induction false} TallyLine(c: Counts, cnt: nat)
    ensures Tally(c, LineFor(cnt)) ==
              if cnt % 3 == 0 && cnt % 5 == 0 then c.(fizzbuzz := c.fizzbuzz + 1)
              else if cnt % 3 == 0 then c.(fizz := c.fizz + 1)
              else if cnt % 5 == 0 then c.(buzz := c.buzz + 1)
              else c
  {
    var prefix := "[" + NatToString(cnt) + "] ";
    var word :=
      if cnt % 3 == 0 && cnt % 5 == 0 then "fizzbuzz"
      else if cnt % 3 == 0 then "fizz"
      else if cnt % 5 == 0 then "buzz"
      else "-";
    assert LineFor(cnt) == prefix + word;
    assert forall i :: 0 <= i < |prefix| ==> prefix[i] == '[' || IsDigit(prefix[i]) || prefix[i] == ']' || prefix[i] == ' ';
    ContainsPastPrefix(prefix, word, "fizzbuzz");
    ContainsPastPrefix(prefix, word, "fizz");
    ContainsPastPrefix(prefix, word, "buzz");
    WordFacts();
  }

  // ---------------------------------------------------------------------------
  // Counting

  /** The counters after the lines of iterations 0 .. n-1. */
  function CountersAfter(n: nat): Counts {
    if n == 0 then Counts(0, 0, 0) else Tally(CountersAfter(n - 1), LineFor(n - 1))
  }

  /** How many of 0 .. n-1 are multiples of k. */
  function Multiples(n: nat, k: nat): nat
    requires k > 0
  {
    if n == 0 then 0 else Multiples(n - 1, k) + (if (n - 1) % k == 0 then 1 else 0)
  }

  lemma FifteenIsThreeAndFive(x: nat)
    ensures x % 15 == 0 <==> x % 3 == 0 && x % 5 == 0
  {
    var q := x / 15;
    var r := x % 15;
    assert x == 15 * q + r;
    assert x % 3 == r % 3 by {
      assert x == 3 * (5 * q) + r;
    }
    assert x % 5 == r % 5 by {
      assert x == 5 * (3 * q) + r;
    }
  }

  /** After n iterations `fizzbuzz` counts the multiples of 15 below n, and
      `fizz` / `buzz` the multiples of 3 / 5 below n that are not multiples of 15. */
  lemma {:induction false} CountersAfterCountMultiples(n: nat)
    ensures CountersAfter(n).fizzbuzz == Multiples(n, 15)
    ensures CountersAfter(n).fizz + Multiples(n, 15) == Multiples(n, 3)
    ensures CountersAfter(n).buzz + Multiples(n, 15) == Multiples(n, 5)
  {
    if n > 0 {
      CountersAfterCountMultiples(n - 1);
      TallyLine(CountersAfter(n - 1), n - 1);
      FifteenIsThreeAndFive(n - 1);
    }
  }

  /** The counters never decrease. */
  lemma {:induction false} CountersMonotone(i: nat, j: nat)
    requires i <= j
    ensures CountersAfter(i).fizz <= CountersAfter(j).fizz
    ensures CountersAfter(i).buzz <= CountersAfter(j).buzz
    ensures CountersAfter(i).fizzbuzz <= CountersAfter(j).fizzbuzz
    decreases j
  {
    if i < j {
      CountersMonotone(i, j - 1);
      TallyLine(CountersAfter(j - 1), j - 1);
    }
  }

  lemma {:induction false} LoopEmitsCounters(cnt: nat, clock: seq<real>)
    ensures var records := Loop(cnt, CountersAfter(cnt), clock);
      forall i :: 0 <= i < |records| ==> records[i] == Emit(clock[i], CountersAfter(cnt + i + 1))
    decreases |clock|
  {
    if clock != [] {
      var records := Loop(cnt, CountersAfter(cnt), clock);
      var rest := Loop(cnt + 1, CountersAfter(cnt + 1), clock[1..]);
      assert records == [Emit(clock[0], CountersAfter(cnt + 1))] + rest;
      LoopEmitsCounters(cnt + 1, clock[1..]);
      forall i | 0 <= i < |records|
        ensures records[i] == Emit(clock[i], CountersAfter(cnt + i + 1))
      {
        if i > 0 {
          assert records[i] == Loop(cnt + 1, CountersAfter(cnt + 1), clock[1..])[i - 1];
        }
      }
    }
  }

  /** Record i carries `clock[i]` and the counters after iterations 0 .. i, and
      the records' counters never decrease. */
  lemma ParseAppLogRecords(clock: seq<real>)
    ensures var records := ParseAppLog(clock);
      && |records| == |clock|
      && (forall i :: 0 <= i < |records| ==>
            && records[i].unixtime == clock[i]
            && records[i].fizzbuzz == Multiples(i + 1, 15)
            && records[i].fizz + Multiples(i + 1, 15) == Multiples(i + 1, 3)
            && records[i].buzz + Multiples(i + 1, 15) == Multiples(i + 1, 5))
      && (forall i, j :: 0 <= i <= j < |records| ==>
            records[i].fizz <= records[j].fizz && records[i].buzz <= records[j].buzz
            && records[i].fizzbuzz <= records[j].fizzbuzz)
  {
    var records := ParseAppLog(clock);
    forall i | 0 <= i < |records|
      ensures records[i].unixtime == clock[i]
      ensures records[i].fizzbuzz == Multiples(i + 1, 15)
      ensures records[i].fizz + Multiples(i + 1, 15) == Multiples(i + 1, 3)
      ensures records[i].buzz + Multiples(i + 1, 15) == Multiples(i + 1, 5)
    {
      RecordCounts(clock, i);
    }
    forall i, j | 0 <= i <= j < |records|
      ensures records[i].fizz <= records[j].fizz && records[i].buzz <= records[j].buzz
      ensures records[i].fizzbuzz <= records[j].fizzbuzz
    {
      RecordsMonotone(clock, i, j);
    }
  }

  lemma RecordCounts(clock: seq<real>, i: nat)
    requires i < |clock|
    ensures var r := ParseAppLog(clock)[i];
      && r.unixtime == clock[i]
      && r.fizzbuzz == Multiples(i + 1, 15)
      && r.fizz + Multiples(i + 1, 15) == Multiples(i + 1, 3)
      && r.buzz + Multiples(i + 1, 15) == Multiples(i + 1, 5)
  {
    LoopEmitsCounters(0, clock);
    CountersAfterCountMultiples(i + 1);
  }

  lemma RecordsMonotone(clock: seq<real>, i: nat, j: nat)
    requires i <= j < |clock|
    ensures var (a, b) := (ParseAppLog(clock)[i], ParseAppLog(clock)[j]);
      a.fizz <= b.fizz && a.buzz <= b.buzz && a.fizzbuzz <= b.fizzbuzz
  {
    LoopEmitsCounters(0, clock);
    CountersMonotone(i + 1, j + 1);
  }
}
