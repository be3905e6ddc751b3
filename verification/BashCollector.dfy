/** Joining the stored output of a finished command: page through the search, sort by order,
    concatenate, and take the exit code from the last event. */
module BashCollector {
  import opened Wrappers
  import opened BashNames
  import opened BashSearch
  import opened BashExecution

  const PAGE_LIMIT: nat := 100

  function OutputsOf(cmd: string): Query {
    Query(Some("BashOutput"), Some(cmd), None, None, None, false)
  }

  // ---------------------------------------------------------------------------------------
  // The stable sort
  // ---------------------------------------------------------------------------------------

  predicate Outputs(es: seq<BashEvent>) {
    forall e :: e in es ==> e.BashOutput?
  }

  predicate SortedByOrder(es: seq<BashEvent>)
    requires Outputs(es)
  {
    forall i, j :: 0 <= i < j < |es| ==> es[i].order <= es[j].order
  }

  /** Put `e` behind everything that is not of greater order. */
  function Place(es: seq<BashEvent>, e: BashEvent): (r: seq<BashEvent>)
    requires Outputs(es) && e.BashOutput?
    ensures multiset(r) == multiset(es) + multiset{e}
    ensures forall x :: x in r <==> x in es || x == e
  {
    if es == [] || es[|es| - 1].order <= e.order then es + [e]
    else
      assert es == es[..|es| - 1] + [es[|es| - 1]];
      Place(es[..|es| - 1], e) + [es[|es| - 1]]
  }

  lemma {:induction false} PlaceSorted(es: seq<BashEvent>, e: BashEvent)
    requires Outputs(es) && e.BashOutput? && SortedByOrder(es)
    ensures SortedByOrder(Place(es, e))
  {
    if es != [] && es[|es| - 1].order > e.order {
      PlaceSorted(es[..|es| - 1], e);
      var r := Place(es[..|es| - 1], e);
      forall i | 0 <= i < |r| ensures r[i].BashOutput? && r[i].order <= es[|es| - 1].order {
        assert r[i] in r;
        if r[i] != e {
          var k :| 0 <= k < |es| - 1 && es[..|es| - 1][k] == r[i];
        }
      }
    }
  }

  /** `outputs.sort(key=lambda output: output.order)`. */
  function SortOutputs(es: seq<BashEvent>): (r: seq<BashEvent>)
    requires Outputs(es)
    ensures multiset(r) == multiset(es)
    ensures forall x :: x in r <==> x in es
  {
    if es == [] then []
    else
      assert es == es[..|es| - 1] + [es[|es| - 1]];
      Place(SortOutputs(es[..|es| - 1]), es[|es| - 1])
  }

  lemma {:induction false} SortOutputsSorted(es: seq<BashEvent>)
    requires Outputs(es)
    ensures SortedByOrder(SortOutputs(es))
  {
    if es != [] {
      SortOutputsSorted(es[..|es| - 1]);
      PlaceSorted(SortOutputs(es[..|es| - 1]), es[|es| - 1]);
    }
  }

  function WithOrder(es: seq<BashEvent>, k: int): seq<BashEvent>
    requires Outputs(es)
  {
    if es == [] then []
    else WithOrder(es[..|es| - 1], k) + if es[|es| - 1].order == k then [es[|es| - 1]] else []
  }

  function Kept(e: BashEvent, k: int): seq<BashEvent>
    requires e.BashOutput?
  {
    if e.order == k then [e] else []
  }

  lemma WithOrderSnoc(es: seq<BashEvent>, e: BashEvent, k: int)
    requires Outputs(es) && e.BashOutput?
    ensures WithOrder(es + [e], k) == WithOrder(es, k) + Kept(e, k)
  {
    assert (es + [e])[..|es|] == es;
  }

  lemma Swap(w: seq<BashEvent>, x: seq<BashEvent>, y: seq<BashEvent>)
    requires x == [] || y == []
    ensures w + x + y == w + y + x
  {
    if x == [] {
      assert w + x == w && w + y + x == w + y;
    } else {
      assert w + y == w && w + x + y == w + x;
    }
  }

  lemma {:induction false} PlaceStable(es: seq<BashEvent>, e: BashEvent, k: int)
    requires Outputs(es) && e.BashOutput? && SortedByOrder(es)
    ensures WithOrder(Place(es, e), k) == WithOrder(es, k) + Kept(e, k)
  {
    if es == [] || es[|es| - 1].order <= e.order {
      WithOrderSnoc(es, e, k);
    } else {
      var front, last := es[..|es| - 1], es[|es| - 1];
      PlaceStable(front, e, k);
      WithOrderSnoc(Place(front, e), last, k);
      Swap(WithOrder(front, k), Kept(e, k), Kept(last, k));
    }
  }

  /** The sort is stable: events of equal order keep their relative places. */
  lemma {:induction false} SortOutputsStable(es: seq<BashEvent>, k: int)
    requires Outputs(es)
    ensures WithOrder(SortOutputs(es), k) == WithOrder(es, k)
  {
    if es != [] {
      var front, last := es[..|es| - 1], es[|es| - 1];
      SortOutputsStable(front, k);
      SortOutputsSorted(front);
      PlaceStable(SortOutputs(front), last, k);
    }
  }

  // ---------------------------------------------------------------------------------------
  // Any sorted arrangement of the saved events reads as the real output
  // ---------------------------------------------------------------------------------------

  datatype Collected = Collected(exitCode: int, stdout: Option<string>, stderr: Option<string>)

  function JoinAll(sorted: seq<BashEvent>): Collected
    requires Outputs(sorted)
  {
    if sorted == [] then Collected(-1, None, None)
    else
      assert sorted[|sorted| - 1] in sorted;
      var final := sorted[|sorted| - 1];
      Collected(if final.exitCode == None then -1 else final.exitCode.value,
                NonEmpty(Join(sorted, Stdout)), NonEmpty(Join(sorted, Stderr)))
  }

  /** The events that carry text of a stream. */
  function Carriers(es: seq<BashEvent>, s: Stream): (r: seq<BashEvent>)
    ensures forall e :: e in r <==> e in es && Carries(e, s)
  {
    if es == [] then []
    else Carriers(es[..|es| - 1], s) + if Carries(es[|es| - 1], s) then [es[|es| - 1]] else []
  }

  lemma {:induction false} JoinCarriers(es: seq<BashEvent>, s: Stream)
    ensures Join(Carriers(es, s), s) == Join(es, s)
  {
    if es != [] {
      var front, last := es[..|es| - 1], es[|es| - 1];
      JoinCarriers(front, s);
      if Carries(last, s) {
        JoinSnoc(Carriers(front, s), last, s);
      } else {
        assert Join(front, s) + "" == Join(front, s);
        assert Carriers(front, s) + [] == Carriers(front, s);
      }
    }
  }

  ghost predicate StrictlyRising(es: seq<BashEvent>) {
    Outputs(es) && forall i, j :: 0 <= i < j < |es| ==> es[i].order < es[j].order
  }

  lemma LastIsGreatest(a: seq<BashEvent>, x: BashEvent)
    requires StrictlyRising(a) && x in a
    ensures x == a[|a| - 1] || x.order < a[|a| - 1].order
  {
  }

  lemma FrontExcludesLast(a: seq<BashEvent>, x: BashEvent)
    requires StrictlyRising(a) && a != []
    ensures x in a[..|a| - 1] <==> x in a && x != a[|a| - 1]
  {
    assert a == a[..|a| - 1] + [a[|a| - 1]];
    assert forall i :: 0 <= i < |a| - 1 ==> a[i].order < a[|a| - 1].order;
  }

  ghost predicate SameEvents(a: seq<BashEvent>, b: seq<BashEvent>) {
    forall x :: x in a <==> x in b
  }

  lemma SameLast(a: seq<BashEvent>, b: seq<BashEvent>)
    requires StrictlyRising(a) && StrictlyRising(b) && a != [] && b != [] && SameEvents(a, b)
    ensures a[|a| - 1] == b[|b| - 1]
    ensures StrictlyRising(a[..|a| - 1]) && StrictlyRising(b[..|b| - 1])
    ensures SameEvents(a[..|a| - 1], b[..|b| - 1])
  {
    var m, n := |a| - 1, |b| - 1;
    assert a[m] in a && b[n] in b;
    LastIsGreatest(b, a[m]);
    LastIsGreatest(a, b[n]);
    forall x ensures x in a[..m] <==> x in b[..n] {
      FrontExcludesLast(a, x);
      FrontExcludesLast(b, x);
    }
  }

  /** Events of strictly rising order are determined by which events they are. */
  lemma {:induction false} RisingUnique(a: seq<BashEvent>, b: seq<BashEvent>)
    requires StrictlyRising(a) && StrictlyRising(b) && SameEvents(a, b)
    ensures a == b
  {
    assert a == [] || a[0] in a;
    assert b == [] || b[0] in b;
    if a != [] {
      var m, n := |a| - 1, |b| - 1;
      SameLast(a, b);
      RisingUnique(a[..m], b[..n]);
      assert a == a[..m] + [a[m]] && b == b[..n] + [b[n]];
    }
  }

  lemma RisingAppend(es: seq<BashEvent>, e: BashEvent)
    requires StrictlyRising(es) && e.BashOutput? && forall x :: x in es ==> x.order < e.order
    ensures StrictlyRising(es + [e])
  {
    forall i | 0 <= i < |es| ensures es[i].order < e.order {
      assert es[i] in es;
    }
  }

  lemma LastCarrierIsGreatest(es: seq<BashEvent>, s: Stream, x: BashEvent)
    requires es != [] && Outputs(es) && Rises(es, s) && Carries(es[|es| - 1], s)
    requires x in es[..|es| - 1] && Carries(x, s)
    ensures x.order < es[|es| - 1].order
  {
    var k :| 0 <= k < |es| - 1 && es[k] == x;
  }

  lemma {:induction false} CarriersRise(es: seq<BashEvent>, s: Stream)
    requires Outputs(es) && Rises(es, s)
    ensures StrictlyRising(Carriers(es, s))
  {
    if es != [] {
      var front, last := es[..|es| - 1], es[|es| - 1];
      CarriersRise(front, s);
      if Carries(last, s) {
        forall x | x in Carriers(front, s) ensures x.BashOutput? && x.order < last.order {
          LastCarrierIsGreatest(es, s, x);
        }
        RisingAppend(Carriers(front, s), last);
      }
    }
  }

  ghost predicate NoDuplicates(es: seq<BashEvent>) {
    forall i, j :: 0 <= i < j < |es| ==> es[i] != es[j]
  }

  /** The same events, in some order. */
  ghost predicate Rearranges(p: seq<BashEvent>, es: seq<BashEvent>) {
    NoDuplicates(p) && forall x :: x in p <==> x in es
  }

  lemma SortedRises(p: seq<BashEvent>, es: seq<BashEvent>, s: Stream)
    requires Outputs(es) && Rearranges(p, es) && SortedByOrder(p) && Rises(es, s)
    ensures Rises(p, s)
  {
    forall i, j | 0 <= i < j < |p| && Carries(p[i], s) && Carries(p[j], s) ensures p[i].order < p[j].order {
      assert p[i] in p && p[j] in p;
      var m :| 0 <= m < |es| && es[m] == p[i];
      var n :| 0 <= n < |es| && es[n] == p[j];
      assert m != n;
    }
  }

  /** Ties across streams and file names that sort differently do not matter: whichever way equal
      orders fall, each stream's text comes out whole. */
  lemma SortedJoin(p: seq<BashEvent>, es: seq<BashEvent>, s: Stream)
    requires Outputs(es) && Rearranges(p, es) && SortedByOrder(p) && Rises(es, s)
    ensures Join(p, s) == Join(es, s)
  {
    SortedRises(p, es, s);
    CarriersRise(p, s);
    CarriersRise(es, s);
    RisingUnique(Carriers(p, s), Carriers(es, s));
    JoinCarriers(p, s);
    JoinCarriers(es, s);
  }

  lemma SortedExit(p: seq<BashEvent>, max: nat, es: seq<BashEvent>, code: Option<int>)
    requires Outputs(es) && Rearranges(p, es) && SortedByOrder(p) && es != [] && Final(max, es, code)
    ensures p != [] && p[|p| - 1] == es[|es| - 1]
  {
    var last := es[|es| - 1];
    assert last in es;
    var k :| 0 <= k < |p| && p[k] == last;
    assert p[|p| - 1] in p;
    var m :| 0 <= m < |es| && es[m] == p[|p| - 1];
  }

  /** The collected result equals the real output, for every completed run and every sorted
      arrangement of what it saved. */
  lemma CollectedEqualsOutput(cmd: Command, out: seq<string>, err: seq<string>, code: Option<int>,
                              saved: seq<BashEvent>, p: seq<BashEvent>)
    requires Completed(cmd, out, err, code, saved)
    requires Rearranges(p, saved) && Outputs(p) && SortedByOrder(p)
    ensures JoinAll(p).exitCode == if code.Some? then code.value else -1
    ensures JoinAll(p).stdout == if Text(out) == "" then None else Some(Text(out))
    ensures JoinAll(p).stderr == if Text(err) == "" then None else Some(Text(err))
  {
    SortedJoin(p, saved, Stdout);
    SortedJoin(p, saved, Stderr);
    if code.Some? {
      SortedExit(p, cmd.max, saved, code);
    } else if p != [] {
      assert p[|p| - 1] in saved;
    }
  }

  // ---------------------------------------------------------------------------------------
  // Collecting through the paged search
  // ---------------------------------------------------------------------------------------

  /** The command's loadable output files in the directory are exactly its saved events, whatever
      other files there are. */
  ghost predicate Holds(dir: Directory, cmd: string, saved: seq<BashEvent>) {
    && "" !in dir
    && (forall e :: e in saved ==> FileName(e) in dir && dir[FileName(e)] == Some(e))
    && (forall n :: Selected(dir, OutputsOf(cmd), n) ==> exists e :: e in saved && n == FileName(e))
  }

  /** Files of other commands and of other kinds, and files that do not load, never get in the way. */
  lemma OtherFilesDoNotMatter(dir: Directory, cmd: string, saved: seq<BashEvent>)
    requires "" !in dir && forall e :: e in saved ==> FileName(e) in dir && dir[FileName(e)] == Some(e)
    requires forall n :: n in dir && dir[n].Some? && (forall e :: e in saved ==> n != FileName(e)) ==>
                           exists f :: n == FileName(f) && WellFormed(f) && !(f.BashOutput? && f.commandId == cmd)
    ensures Holds(dir, cmd, saved)
  {
    forall n | Selected(dir, OutputsOf(cmd), n) ensures exists e :: e in saved && n == FileName(e) {
      if forall e :: e in saved ==> n != FileName(e) {
        var f :| n == FileName(f) && WellFormed(f) && !(f.BashOutput? && f.commandId == cmd);
        NameIndexAgrees(OutputsOf(cmd), f);
      }
    }
  }

  lemma SavedAreSelected(dir: Directory, cmd: string, saved: seq<BashEvent>, e: BashEvent)
    requires Holds(dir, cmd, saved) && e in saved && e.BashOutput? && e.commandId == cmd && WellFormed(e)
    ensures Selected(dir, OutputsOf(cmd), FileName(e))
  {
    NameIndexAgrees(OutputsOf(cmd), e);
  }

  method ListDirectory(files: Directory) returns (listing: seq<string>)
    ensures Distinct(listing) && forall n :: n in listing <==> n in files
  {
    listing := [];
    var todo := files.Keys;
    while todo != {}
      invariant Distinct(listing)
      invariant forall n :: n in files <==> n in listing || n in todo
      invariant forall n :: n in listing ==> n !in todo
      decreases todo
    {
      var n :| n in todo;
      listing := listing + [n];
      todo := todo - {n};
    }
  }

  /** `(item for item in page.items if isinstance(item, BashOutput))`. */
  function OnlyOutputs(items: seq<BashEvent>): (r: seq<BashEvent>)
    ensures Outputs(r)
    ensures Outputs(items) ==> r == items
  {
    if items == [] then []
    else
      assert items == items[..|items| - 1] + [items[|items| - 1]];
      OnlyOutputs(items[..|items| - 1]) + if items[|items| - 1].BashOutput? then [items[|items| - 1]] else []
  }

  /** The events collected so far belong to the names returned so far. */
  ghost predicate Named(outputs: seq<BashEvent>, names: seq<string>, saved: seq<BashEvent>) {
    |outputs| == |names| && forall i :: 0 <= i < |outputs| ==> outputs[i] in saved && FileName(outputs[i]) == names[i]
  }

  lemma PageIsNamed(dir: Directory, cmd: string, saved: seq<BashEvent>, names: seq<string>)
    requires Holds(dir, cmd, saved) && forall n :: n in names ==> Selected(dir, OutputsOf(cmd), n)
    ensures Named(Load(dir, names), names, saved)
  {
    forall i | 0 <= i < |names| ensures Load(dir, names)[i] in saved && FileName(Load(dir, names)[i]) == names[i] {
      assert names[i] in names;
      var e :| e in saved && names[i] == FileName(e);
    }
  }

  lemma NamedRearranges(outputs: seq<BashEvent>, names: seq<string>, saved: seq<BashEvent>)
    requires Named(outputs, names, saved) && Distinct(names) && DistinctIds(saved)
    requires forall e :: e in saved ==> WellFormed(e) && FileName(e) in names
    ensures Rearranges(outputs, saved)
  {
    forall e | e in saved ensures e in outputs {
      var i :| 0 <= i < |names| && names[i] == FileName(e);
      FileNameInjective(e, outputs[i]);
      var m :| 0 <= m < |saved| && saved[m] == e;
      var n :| 0 <= n < |saved| && saved[n] == outputs[i];
      assert m == n;
    }
  }

  lemma {:induction false} PlaceNoDuplicates(es: seq<BashEvent>, e: BashEvent)
    requires Outputs(es) && e.BashOutput? && NoDuplicates(es) && e !in es
    ensures NoDuplicates(Place(es, e))
  {
    if es != [] && es[|es| - 1].order > e.order {
      var front, last := es[..|es| - 1], es[|es| - 1];
      PlaceNoDuplicates(front, e);
      assert last !in front;
      assert last !in Place(front, e);
    }
  }

  lemma {:induction false} SortNoDuplicates(es: seq<BashEvent>)
    requires Outputs(es) && NoDuplicates(es)
    ensures NoDuplicates(SortOutputs(es))
  {
    if es != [] {
      SortNoDuplicates(es[..|es| - 1]);
      assert es[|es| - 1] !in es[..|es| - 1];
      PlaceNoDuplicates(SortOutputs(es[..|es| - 1]), es[|es| - 1]);
    }
  }

  /** Names of the saved events. */
  ghost function NamesOf(saved: seq<BashEvent>): seq<string> {
    seq(|saved|, i requires 0 <= i < |saved| => FileName(saved[i]))
  }

  lemma CollectedCount(outputs: seq<BashEvent>, names: seq<string>, saved: seq<BashEvent>)
    requires Named(outputs, names, saved) && Distinct(names)
    ensures |outputs| <= |saved|
  {
    forall n | n in names ensures n in NamesOf(saved) {
      var i :| 0 <= i < |names| && names[i] == n;
      var m :| 0 <= m < |saved| && saved[m] == outputs[i];
      assert NamesOf(saved)[m] == n;
    }
    DistinctWithin(names, NamesOf(saved));
  }

  /** What other tasks leave in the directory between page requests: they only add files. */
  ghost predicate OthersOnlyAdd(snapshots: nat -> Directory, cmd: string, saved: seq<BashEvent>) {
    && (forall k: nat :: Holds(snapshots(k), cmd, saved))
    && (forall k: nat :: Grows(snapshots(k), snapshots(k + 1)))
  }

  ghost predicate IsOutputOf(cmd: string, saved: seq<BashEvent>) {
    DistinctIds(saved) && forall e :: e in saved ==> e.BashOutput? && e.commandId == cmd && WellFormed(e)
  }

  /** One more page: the visits still form a paging session and the outputs still have their names. */
  lemma ExtendSession(q: Query, vs: seq<Visit>, v: Visit)
    requires vs == [] || (Paging(q, PAGE_LIMIT, vs) && LastNext(vs).Some? && Grows(vs[|vs| - 1].dir, v.dir))
    requires "" !in v.dir
    requires IsPage(v.dir, q, EffectiveCursor(v.dir, q, LastNext(vs)), PAGE_LIMIT, v.names, v.next)
    ensures Paging(q, PAGE_LIMIT, vs + [v])
    ensures AllNames(vs + [v]) == AllNames(vs) + v.names
  {
    var ws := vs + [v];
    assert ws[..|vs|] == vs;
    forall k | 0 <= k < |ws| ensures GoodVisit(q, PAGE_LIMIT, ws, k) {
      if k < |vs| {
        assert GoodVisit(q, PAGE_LIMIT, vs, k) && CursorOf(ws, k) == CursorOf(vs, k);
      }
    }
  }

  lemma SessionNames(outputs: seq<BashEvent>, before: seq<string>, page: seq<BashEvent>, names: seq<string>,
                     saved: seq<BashEvent>)
    requires Named(outputs, before, saved) && Named(page, names, saved)
    ensures Named(outputs + page, before + names, saved)
  {
  }

  ghost function LastNext(vs: seq<Visit>): Option<string> {
    if vs == [] then None else vs[|vs| - 1].next
  }

  /** The pages visited so far form a session over growing directories that hold the command's
      output, and what was collected is what they listed. */
  ghost predicate Session(cmd: string, saved: seq<BashEvent>, vs: seq<Visit>, outputs: seq<BashEvent>) {
    && (vs != [] ==> Paging(OutputsOf(cmd), PAGE_LIMIT, vs) && Holds(vs[0].dir, cmd, saved))
    && Named(outputs, AllNames(vs), saved)
    && |outputs| <= |saved|
  }

  /** One round of the page loop. */
  lemma CollectPage(cmd: string, saved: seq<BashEvent>, vs: seq<Visit>, dir: Directory, items: seq<BashEvent>,
                    next: Option<string>, outputs: seq<BashEvent>) returns (v: Visit)
    requires IsOutputOf(cmd, saved) && Holds(dir, cmd, saved) && Session(cmd, saved, vs, outputs)
    requires vs == [] || (LastNext(vs).Some? && Grows(vs[|vs| - 1].dir, dir))
    requires IsPageOf(dir, OutputsOf(cmd), EffectiveCursor(dir, OutputsOf(cmd), LastNext(vs)), PAGE_LIMIT, items, next)
    ensures v.dir == dir && v.next == next && Outputs(items)
    ensures Session(cmd, saved, vs + [v], outputs + items)
    ensures next.Some? ==> next.value != "" && |items| > 0
  {
    var q := OutputsOf(cmd);
    var cursor := EffectiveCursor(dir, q, LastNext(vs));
    var names :| IsPage(dir, q, cursor, PAGE_LIMIT, names, next) && items == Load(dir, names);
    v := Visit(dir, names, next);
    PageIsNamed(dir, cmd, saved, names);
    ExtendSession(q, vs, v);
    SessionNames(outputs, AllNames(vs), items, names, saved);
    PagingUnderAppends(q, PAGE_LIMIT, vs + [v]);
    CollectedCount(outputs + items, AllNames(vs + [v]), saved);
  }

  lemma SessionCollects(cmd: string, saved: seq<BashEvent>, vs: seq<Visit>, outputs: seq<BashEvent>)
    requires IsOutputOf(cmd, saved) && Session(cmd, saved, vs, outputs) && vs != [] && LastNext(vs).None?
    ensures Rearranges(outputs, saved)
  {
    forall e | e in saved ensures FileName(e) in AllNames(vs) {
      SavedAreSelected(vs[0].dir, cmd, saved, e);
      PagesCover(OutputsOf(cmd), PAGE_LIMIT, vs, FileName(e));
    }
    PagingUnderAppends(OutputsOf(cmd), PAGE_LIMIT, vs);
    NamedRearranges(outputs, AllNames(vs), saved);
  }

  lemma Snapshot(snapshots: nat -> Directory, cmd: string, saved: seq<BashEvent>, k: nat)
    requires OthersOnlyAdd(snapshots, cmd, saved)
    ensures Holds(snapshots(k), cmd, saved) && (k > 0 ==> Grows(snapshots(k - 1), snapshots(k)))
  {
    assert k > 0 ==> Grows(snapshots(k - 1), snapshots(k - 1 + 1));
  }

  /** One request, answered from the directory as it then is. */
  method RequestPage(store: BashEventStore, cmd: string, dir: Directory, pageId: Option<string>,
                     ghost saved: seq<BashEvent>, ghost vs: seq<Visit>, ghost outputs: seq<BashEvent>)
    returns (items: seq<BashEvent>, next: Option<string>, ghost v: Visit)
    requires IsOutputOf(cmd, saved) && Holds(dir, cmd, saved) && Session(cmd, saved, vs, outputs)
    requires pageId == LastNext(vs) && (vs == [] || (pageId.Some? && Grows(vs[|vs| - 1].dir, dir)))
    modifies store
    ensures v.dir == dir && v.next == next && Outputs(items)
    ensures Session(cmd, saved, vs + [v], outputs + items)
    ensures next.Some? ==> next.value != "" && |items| > 0
  {
    store.files := dir;
    var listing := ListDirectory(store.files);
    items, next := store.Search(OutputsOf(cmd), pageId, PAGE_LIMIT, listing);
    v := CollectPage(cmd, saved, vs, dir, items, next, outputs);
  }

  /** The page loop: every output event of the command is collected, and none twice. */
  method CollectOutputs(store: BashEventStore, cmd: string, snapshots: nat -> Directory, ghost saved: seq<BashEvent>)
    returns (outputs: seq<BashEvent>)
    requires IsOutputOf(cmd, saved) && OthersOnlyAdd(snapshots, cmd, saved)
    modifies store
    ensures Outputs(outputs) && Rearranges(outputs, saved)
  {
    var pageId: Option<string> := None;
    var k: nat := 0;
    ghost var vs: seq<Visit> := [];
    outputs := [];
    while true
      invariant pageId == LastNext(vs)
      invariant vs == [] ==> k == 0
      invariant vs != [] ==> pageId.Some? && k > 0 && vs[|vs| - 1].dir == snapshots(k - 1)
      invariant Outputs(outputs) && Session(cmd, saved, vs, outputs)
      decreases |saved| - |outputs|
    {
      Snapshot(snapshots, cmd, saved, k);
      var items, next;
      ghost var v;
      items, next, v := RequestPage(store, cmd, snapshots(k), pageId, saved, vs, outputs);
      vs := vs + [v];
      outputs := outputs + OnlyOutputs(items);
      pageId := next;
      k := k + 1;
      if pageId.None? || pageId.value == "" {
        break;
      }
    }
    SessionCollects(cmd, saved, vs, outputs);
  }

  /** `_collect_bash_output`, for a command whose run has completed: the text read on each stream
      and the exit code of the process. */
  method CollectBashOutput(store: BashEventStore, cmd: string, snapshots: nat -> Directory,
                           ghost actions: seq<Action>, ghost out: seq<string>, ghost err: seq<string>,
                           ghost final: State)
    returns (r: Collected)
    requires IsHex(cmd)
    requires Run(ServiceCommand(cmd), Start(out, err), actions) == Some(final) && final.exited
    requires OthersOnlyAdd(snapshots, cmd, final.saved)
    modifies store
    ensures actions != [] && actions[|actions| - 1].Exit?
    ensures var code := actions[|actions| - 1].code; r.exitCode == if code.Some? then code.value else -1
    ensures r.stdout == if Text(out) == "" then None else Some(Text(out))
    ensures r.stderr == if Text(err) == "" then None else Some(Text(err))
  {
    EveryRun(ServiceCommand(cmd), out, err, actions);
    var outputs := CollectOutputs(store, cmd, snapshots, final.saved);
    SortOutputsSorted(outputs);
    SortNoDuplicates(outputs);
    CollectedEqualsOutput(ServiceCommand(cmd), out, err, ExitCode(actions), final.saved, SortOutputs(outputs));
    r := JoinAll(SortOutputs(outputs));
  }
}
