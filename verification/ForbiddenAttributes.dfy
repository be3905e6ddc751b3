/** The baseline check for forbidden dynamic attribute calls: current occurrences against a
    committed multiset of allowances. */
module ForbiddenAttributes {

  datatype Key = Key(file: string, name: string, digest: string)

  datatype Occurrence = Occurrence(key: Key, line: nat)

  function Keys(current: seq<Occurrence>): seq<Key> {
    seq(|current|, i requires 0 <= i < |current| => current[i].key)
  }

  function Min(a: int, b: int): int {
    if a < b then a else b
  }

  /** How many occurrences of a key exceed its allowance. */
  function Excess(total: multiset<Key>, baseline: multiset<Key>, k: Key): nat {
    if total[k] > baseline[k] then total[k] - baseline[k] else 0
  }

  function Count(current: seq<Occurrence>, k: Key): nat {
    multiset(Keys(current))[k]
  }

  lemma KeysAppend(reported: seq<Occurrence>, o: Occurrence, k: Key)
    ensures Count(reported + [o], k) == Count(reported, k) + if o.key == k then 1 else 0
  {
    assert Keys(reported + [o]) == Keys(reported) + [o.key];
  }

  lemma KeysSnoc(current: seq<Occurrence>, i: nat, k: Key)
    requires i < |current|
    ensures Count(current[..i + 1], k) == Count(current[..i], k) + if current[i].key == k then 1 else 0
    ensures Count(current[..i + 1], k) <= Count(current, k)
  {
    assert current[..i + 1] == current[..i] + [current[i]];
    KeysAppend(current[..i], current[i], k);
    assert Keys(current) == Keys(current[..i + 1]) + Keys(current[i + 1..]);
  }

  /** Where one key stands after `seen` of its occurrences: the first ones were reported, up to the
      excess, and the counter has gone down with each report. */
  predicate Stands(total: multiset<Key>, baseline: multiset<Key>, seen: nat, reported: nat, left: nat, k: Key) {
    reported == Min(seen, Excess(total, baseline, k)) && left == total[k] - reported
  }

  datatype Progress = Progress(reported: seq<Occurrence>, counter: multiset<Key>)

  predicate KeyStands(current: seq<Occurrence>, baseline: multiset<Key>, i: nat, p: Progress, k: Key)
    requires i <= |current|
  {
    Stands(multiset(Keys(current)), baseline, Count(current[..i], k), Count(p.reported, k), p.counter[k], k)
  }

  ghost predicate AllStand(current: seq<Occurrence>, baseline: multiset<Key>, i: nat, p: Progress)
    requires i <= |current|
  {
    forall k :: KeyStands(current, baseline, i, p, k)
  }

  lemma Skip(current: seq<Occurrence>, baseline: multiset<Key>, i: nat, p: Progress)
    requires i < |current| && AllStand(current, baseline, i, p)
    requires p.counter[current[i].key] <= baseline[current[i].key]
    ensures AllStand(current, baseline, i + 1, p)
  {
    var n := i + 1;
    forall k ensures KeyStands(current, baseline, n, p, k) {
      assert KeyStands(current, baseline, i, p, k);
      KeysSnoc(current, i, k);
    }
  }

  function Reporting(p: Progress, o: Occurrence): Progress
    requires p.counter[o.key] > 0
  {
    Progress(p.reported + [o], p.counter[o.key := p.counter[o.key] - 1])
  }

  lemma Report(current: seq<Occurrence>, baseline: multiset<Key>, i: nat, p: Progress)
    requires i < |current| && AllStand(current, baseline, i, p)
    requires p.counter[current[i].key] > baseline[current[i].key]
    ensures AllStand(current, baseline, i + 1, Reporting(p, current[i]))
  {
    var n := i + 1;
    forall k ensures KeyStands(current, baseline, n, Reporting(p, current[i]), k) {
      assert KeyStands(current, baseline, i, p, k);
      KeysSnoc(current, i, k);
      KeysAppend(p.reported, current[i], k);
    }
  }

  lemma AllReported(current: seq<Occurrence>, baseline: multiset<Key>, p: Progress)
    requires AllStand(current, baseline, |current|, p)
    ensures multiset(Keys(p.reported)) == multiset(Keys(current)) - baseline
    ensures p.counter == multiset(Keys(current)) * baseline
  {
    var total := multiset(Keys(current));
    assert current[..|current|] == current;
    forall k ensures Count(p.reported, k) == (total - baseline)[k] && p.counter[k] == (total * baseline)[k] {
      assert KeyStands(current, baseline, |current|, p, k);
    }
  }

  /** Of the first `n` occurrences, those that come before as many of their key as exceed the baseline. */
  function FirstExcess(current: seq<Occurrence>, baseline: multiset<Key>, n: nat): seq<Occurrence>
    requires n <= |current|
  {
    if n == 0 then []
    else
      var o := current[n - 1];
      var before := Count(current[..n - 1], o.key);
      FirstExcess(current, baseline, n - 1)
      + if before + baseline[o.key] < Count(current, o.key) then [o] else []
  }

  lemma WhenReported(current: seq<Occurrence>, baseline: multiset<Key>, i: nat, p: Progress)
    requires i < |current| && AllStand(current, baseline, i, p)
    ensures p.counter[current[i].key] > baseline[current[i].key] <==>
            Count(current[..i], current[i].key) + baseline[current[i].key] < Count(current, current[i].key)
  {
    assert KeyStands(current, baseline, i, p, current[i].key);
    KeysSnoc(current, i, current[i].key);
  }

  /** The loop reports, per key, exactly the excess over the baseline, and leaves in the counter
      what the baseline covers. The occurrences reported are the first ones of their key, in order. */
  method NewViolations(current: seq<Occurrence>, baseline: multiset<Key>)
    returns (reported: seq<Occurrence>, counter: multiset<Key>)
    ensures multiset(Keys(reported)) == multiset(Keys(current)) - baseline
    ensures counter == multiset(Keys(current)) * baseline
    ensures reported == FirstExcess(current, baseline, |current|)
  {
    counter := multiset(Keys(current));
    reported := [];
    for i := 0 to |current|
      invariant AllStand(current, baseline, i, Progress(reported, counter))
      invariant reported == FirstExcess(current, baseline, i)
    {
      var o := current[i];
      WhenReported(current, baseline, i, Progress(reported, counter));
      if counter[o.key] > baseline[o.key] {
        Report(current, baseline, i, Progress(reported, counter));
        reported := reported + [o];
        counter := counter[o.key := counter[o.key] - 1];
      } else {
        Skip(current, baseline, i, Progress(reported, counter));
      }
    }
    AllReported(current, baseline, Progress(reported, counter));
  }

  /** What makes a run succeed: nothing over the baseline, and nothing of the baseline unused in a
      file that was checked or that no longer exists. */
  ghost predicate Passes(total: multiset<Key>, baseline: multiset<Key>, checkedFiles: set<string>,
                         existing: set<string>)
  {
    && total <= baseline
    && forall k :: k in baseline - total ==> k.file !in checkedFiles && k.file in existing
  }

  /** `main` after the baseline is loaded: new violations, stale entries, exit code. */
  method Check(current: seq<Occurrence>, baseline: multiset<Key>, checkedFiles: set<string>, existing: set<string>)
    returns (exitCode: int)
    ensures exitCode == 0 || exitCode == 1
    ensures var total := multiset(Keys(current));
            exitCode == 0 <==>
            && (forall k :: total[k] <= baseline[k])
            && (forall k :: total[k] < baseline[k] ==> k.file !in checkedFiles && k.file in existing)
    ensures exitCode == if Passes(multiset(Keys(current)), baseline, checkedFiles, existing) then 0 else 1
  {
    var reported, counter := NewViolations(current, baseline);
    ghost var total := multiset(Keys(current));
    var stale := set k | k in baseline - counter && (k.file in checkedFiles || k.file !in existing);
    NothingNew(reported, total, baseline);
    NothingStale(total, counter, baseline, checkedFiles, existing, stale);
    PassesMeans(total, baseline, checkedFiles, existing);
    exitCode := if reported != [] || stale != {} then 1 else 0;
  }

  lemma NothingNew(reported: seq<Occurrence>, total: multiset<Key>, baseline: multiset<Key>)
    requires multiset(Keys(reported)) == total - baseline
    ensures reported == [] <==> forall k :: total[k] <= baseline[k]
  {
    ReportedNothing(reported);
    NoAdditionsMeansContained(baseline, total);
  }

  lemma NothingStale(total: multiset<Key>, counter: multiset<Key>, baseline: multiset<Key>, checkedFiles: set<string>,
                     existing: set<string>, stale: set<Key>)
    requires counter == total * baseline
    requires stale == set k | k in baseline - counter && (k.file in checkedFiles || k.file !in existing)
    ensures stale == {} <==> forall k :: total[k] < baseline[k] ==> k.file !in checkedFiles && k.file in existing
  {
    assert forall k :: k in baseline - counter <==> total[k] < baseline[k];
    if stale == {} {
      forall k | total[k] < baseline[k] ensures k.file !in checkedFiles && k.file in existing {
        assert k !in stale;
      }
    }
  }

  lemma PassesMeans(total: multiset<Key>, baseline: multiset<Key>, checkedFiles: set<string>, existing: set<string>)
    ensures Passes(total, baseline, checkedFiles, existing) <==>
            && (forall k :: total[k] <= baseline[k])
            && (forall k :: total[k] < baseline[k] ==> k.file !in checkedFiles && k.file in existing)
  {
    assert forall k :: k in baseline - total <==> total[k] < baseline[k];
  }

  lemma ReportedNothing(reported: seq<Occurrence>)
    ensures reported == [] <==> multiset(Keys(reported)) == multiset{}
  {
    if reported != [] {
      assert Keys(reported)[0] in multiset(Keys(reported));
    }
  }

  /** When the files of all baseline entries were checked or are gone, the check succeeds exactly if
      the current occurrences are the baseline, as multisets. */
  lemma CheckIsEquality(total: multiset<Key>, baseline: multiset<Key>, checkedFiles: set<string>, existing: set<string>)
    requires forall k :: k in baseline ==> k.file in checkedFiles || k.file !in existing
    ensures Passes(total, baseline, checkedFiles, existing) <==> total == baseline
  {
    if Passes(total, baseline, checkedFiles, existing) {
      forall k ensures total[k] == baseline[k] {
        assert k !in baseline - total;
      }
    }
  }

  /** The check succeeds right after a baseline update over the same occurrences. */
  method CheckAfterUpdate(current: seq<Occurrence>, checkedFiles: set<string>, existing: set<string>)
    returns (exitCode: int)
    ensures exitCode == 0
  {
    var baseline := multiset(Keys(current));
    exitCode := Check(current, baseline, checkedFiles, existing);
  }

  function BaselineAdditions(reference: multiset<Key>, current: multiset<Key>): multiset<Key> {
    current - reference
  }

  /** The baseline may only shrink: nothing is added exactly if it is contained in the reference. */
  lemma NoAdditionsMeansContained(reference: multiset<Key>, current: multiset<Key>)
    ensures BaselineAdditions(reference, current) == multiset{} <==> current <= reference
  {
    if BaselineAdditions(reference, current) == multiset{} {
      forall k ensures current[k] <= reference[k] {
        assert BaselineAdditions(reference, current)[k] == 0;
      }
    }
  }
}
