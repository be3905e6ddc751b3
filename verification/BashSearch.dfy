/** The cursor-paged search over the event directory and the retention loop. */
module BashSearch {
  import opened Wrappers
  import opened BashNames

  /** File names with the event each file loads as; `None` for a file that does not load. */
  type Directory = map<string, Option<BashEvent>>

  // ---------------------------------------------------------------------------------------
  // Order
  // ---------------------------------------------------------------------------------------

  predicate Precedes(a: string, b: string, descending: bool) {
    if descending then Less(b, a) else Less(a, b)
  }

  lemma PrecedesIsStrictOrder(a: string, b: string, c: string, descending: bool)
    ensures !Precedes(a, a, descending)
    ensures Precedes(a, b, descending) || a == b || Precedes(b, a, descending)
    ensures Precedes(a, b, descending) && Precedes(b, c, descending) ==> Precedes(a, c, descending)
    ensures !(Precedes(a, b, descending) && Precedes(b, a, descending))
  {
    LessIrreflexive(a);
    LessTotal(a, b);
    if Less(a, b) && Less(b, c) { LessTransitive(a, b, c); }
    if Less(c, b) && Less(b, a) { LessTransitive(c, b, a); }
    if Less(a, b) && Less(b, a) { LessTransitive(a, b, a); }
  }

  ghost predicate InOrder(s: seq<string>, descending: bool) {
    forall i, j :: 0 <= i < j < |s| ==> Precedes(s[i], s[j], descending)
  }

  lemma FirstIsLeast(s: seq<string>, x: string, descending: bool)
    requires InOrder(s, descending) && x in s
    ensures x == s[0] || Precedes(s[0], x, descending)
  {
  }

  lemma RestExcludesFirst(s: seq<string>, x: string, descending: bool)
    requires InOrder(s, descending) && s != []
    ensures x in s[1..] <==> x in s && x != s[0]
  {
    PrecedesIsStrictOrder(s[0], s[0], s[0], descending);
    assert s == [s[0]] + s[1..];
    assert forall i :: 0 <= i < |s[1..]| ==> s[1..][i] == s[i + 1] && Precedes(s[0], s[i + 1], descending);
  }

  /** A list in order is determined by its elements. */
  lemma {:induction false} InOrderUnique(s: seq<string>, t: seq<string>, descending: bool)
    requires InOrder(s, descending) && InOrder(t, descending)
    requires forall x :: x in s <==> x in t
    ensures s == t
  {
    assert s == [] || s[0] in s;
    assert t == [] || t[0] in t;
    if s != [] {
      FirstIsLeast(t, s[0], descending);
      FirstIsLeast(s, t[0], descending);
      PrecedesIsStrictOrder(s[0], t[0], s[0], descending);
      forall x ensures x in s[1..] <==> x in t[1..] {
        RestExcludesFirst(s, x, descending);
        RestExcludesFirst(t, x, descending);
      }
      InOrderUnique(s[1..], t[1..], descending);
      assert s == [s[0]] + s[1..] && t == [t[0]] + t[1..];
    }
  }

  lemma ConcatInOrder(s: seq<string>, t: seq<string>, descending: bool)
    requires InOrder(s, descending) && InOrder(t, descending)
    requires forall x, y :: x in s && y in t ==> Precedes(x, y, descending)
    ensures InOrder(s + t, descending)
  {
    forall i, j | 0 <= i < j < |s + t| ensures Precedes((s + t)[i], (s + t)[j], descending) {
      if i < |s| <= j {
        assert s[i] in s && t[j - |s|] in t;
      }
    }
  }

  function InsertName(x: string, s: seq<string>, descending: bool): (r: seq<string>)
    ensures forall y :: y in r <==> y == x || y in s
  {
    if s == [] then [x]
    else if Precedes(x, s[0], descending) then [x] + s
    else [s[0]] + InsertName(x, s[1..], descending)
  }

  lemma {:induction false} InsertKeepsOrder(x: string, s: seq<string>, descending: bool)
    requires InOrder(s, descending) && x !in s
    ensures InOrder(InsertName(x, s, descending), descending)
  {
    if s != [] {
      PrecedesIsStrictOrder(x, s[0], s[0], descending);
      if Precedes(x, s[0], descending) {
        forall j | 0 <= j < |s| ensures Precedes(x, s[j], descending) {
          PrecedesIsStrictOrder(x, s[0], s[j], descending);
        }
      } else {
        assert s[0] in s;
        InsertKeepsOrder(x, s[1..], descending);
        var r := InsertName(x, s[1..], descending);
        forall j | 0 <= j < |r| ensures Precedes(s[0], r[j], descending) {
          assert r[j] in r;
          if r[j] != x {
            var k :| 0 <= k < |s[1..]| && s[1..][k] == r[j];
            assert s[k + 1] == r[j];
          }
        }
      }
    }
  }

  /** `matched.sort(reverse=descending)`. */
  function SortNames(s: seq<string>, descending: bool): (r: seq<string>)
    ensures forall y :: y in r <==> y in s
  {
    if s == [] then [] else InsertName(s[0], SortNames(s[1..], descending), descending)
  }

  ghost predicate Distinct(s: seq<string>) {
    forall i, j :: 0 <= i < j < |s| ==> s[i] != s[j]
  }

  lemma {:induction false} SortNamesInOrder(s: seq<string>, descending: bool)
    requires Distinct(s)
    ensures InOrder(SortNames(s, descending), descending)
  {
    if s != [] {
      SortNamesInOrder(s[1..], descending);
      InsertKeepsOrder(s[0], SortNames(s[1..], descending), descending);
    }
  }

  // ---------------------------------------------------------------------------------------
  // What a page must be
  // ---------------------------------------------------------------------------------------

  /** Only outputs carry an order. */
  predicate PassesOrder(q: Query, e: BashEvent) {
    q.orderGt.Some? && e.BashOutput? ==> e.order > q.orderGt.value
  }

  predicate Selected(dir: Directory, q: Query, name: string) {
    name in dir && NameMatches(q, name) && dir[name].Some? && PassesOrder(q, dir[name].value)
  }

  predicate From(cursor: Option<string>, name: string, descending: bool) {
    cursor.Some? ==> !Precedes(name, cursor.value, descending)
  }

  /** `names` are the first `limit` selected names from the cursor on, in order, and `next` is
      the selected name that comes after them, if any. */
  ghost predicate IsPage(dir: Directory, q: Query, cursor: Option<string>, limit: nat, names: seq<string>,
                         next: Option<string>)
  {
    && InOrder(names, q.descending)
    && |names| <= limit
    && (forall n :: n in names ==> Selected(dir, q, n) && From(cursor, n, q.descending))
    && (next.None? ==> forall n :: Selected(dir, q, n) && From(cursor, n, q.descending) ==> n in names)
    && (next.Some? ==>
          && |names| == limit
          && Selected(dir, q, next.value) && From(cursor, next.value, q.descending)
          && forall n :: Selected(dir, q, n) && From(cursor, n, q.descending) ==>
                           (n in names <==> Precedes(n, next.value, q.descending)))
  }

  /** The selected names of a list, in its order. */
  ghost function Keep(dir: Directory, q: Query, s: seq<string>): (r: seq<string>)
    ensures forall n :: n in r <==> n in s && Selected(dir, q, n)
  {
    if s == [] then []
    else Keep(dir, q, s[..|s| - 1]) + if Selected(dir, q, s[|s| - 1]) then [s[|s| - 1]] else []
  }

  lemma {:induction false} KeepInOrder(dir: Directory, q: Query, s: seq<string>)
    requires InOrder(s, q.descending)
    ensures InOrder(Keep(dir, q, s), q.descending)
  {
    if s != [] {
      KeepInOrder(dir, q, s[..|s| - 1]);
      var last := if Selected(dir, q, s[|s| - 1]) then [s[|s| - 1]] else [];
      ConcatInOrder(Keep(dir, q, s[..|s| - 1]), last, q.descending);
    }
  }

  ghost function Load(dir: Directory, names: seq<string>): seq<BashEvent>
    requires forall n :: n in names ==> n in dir && dir[n].Some?
  {
    seq(|names|, i requires 0 <= i < |names| => assert names[i] in names; dir[names[i]].value)
  }

  /** The events of such a page. */
  ghost predicate IsPageOf(dir: Directory, q: Query, cursor: Option<string>, limit: nat, items: seq<BashEvent>,
                           next: Option<string>)
  {
    exists names :: IsPage(dir, q, cursor, limit, names, next) && items == Load(dir, names)
  }

  /** A cursor that no longer names a matched file restarts the search. */
  function EffectiveCursor(dir: Directory, q: Query, pageId: Option<string>): Option<string> {
    if pageId.Some? && pageId.value != "" && pageId.value in dir && NameMatches(q, pageId.value) then pageId else None
  }

  class BashEventStore {
    var files: Directory

    constructor ()
      ensures files == map[]
    {
      files := map[];
    }

    method Save(e: BashEvent)
      modifies this
      ensures files == old(files)[FileName(e) := Some(e)]
    {
      files := files[FileName(e) := Some(e)];
    }

    /** The scan: `listing` is the directory in whatever order the system reports it. */
    method Scan(q: Query, listing: seq<string>) returns (matched: seq<string>)
      requires Distinct(listing) && (forall n :: n in listing <==> n in files)
      ensures InOrder(matched, q.descending)
      ensures forall i, j :: 0 <= i < j < |matched| ==>
                               if q.descending then Less(matched[j], matched[i]) else Less(matched[i], matched[j])
      ensures forall n :: n in matched <==> n in files && NameMatches(q, n)
    {
      matched := [];
      for i := 0 to |listing|
        invariant Distinct(matched)
        invariant forall n :: n in matched <==> n in listing[..i] && NameMatches(q, n)
      {
        if NameMatches(q, listing[i]) {
          matched := matched + [listing[i]];
        }
      }
      assert listing[..|listing|] == listing;
      SortNamesInOrder(matched, q.descending);
      matched := SortNames(matched, q.descending);
    }

    /** Where the page starts. */
    method Resolve(q: Query, matched: seq<string>, pageId: Option<string>) returns (start: nat)
      requires InOrder(matched, q.descending)
      requires forall n :: n in matched <==> n in files && NameMatches(q, n)
      ensures start <= |matched|
      ensures if pageId.Some? && pageId.value != "" && pageId.value in matched
              then start < |matched| && matched[start] == pageId.value else start == 0
      ensures forall n :: n in matched[start..] <==>
                          n in matched && From(EffectiveCursor(files, q, pageId), n, q.descending)
    {
      start := 0;
      if pageId.Some? && pageId.value != "" {
        var i := 0;
        while i < |matched|
          invariant 0 <= i <= |matched|
          invariant pageId.value !in matched[..i]
        {
          if matched[i] == pageId.value {
            SuffixFromCursor(matched, i, q.descending);
            return i;
          }
          i := i + 1;
        }
        assert matched[..i] == matched;
      }
      assert matched[0..] == matched;
    }

    /** Load from the start of the page, skip what does not load or pass the order filter, stop
        after `limit` events at the next one that would pass. */
    method Fill(q: Query, rest: seq<string>, limit: nat)
      returns (items: seq<BashEvent>, next: Option<string>, ghost stop: nat)
      requires forall n :: n in rest ==> n in files && NameMatches(q, n)
      ensures stop <= |rest| && |items| <= limit
      ensures items == Load(files, Keep(files, q, rest[..stop]))
      ensures next.None? ==> stop == |rest|
      ensures next.Some? ==>
                |items| == limit && stop < |rest| && next.value == rest[stop] && Selected(files, q, rest[stop])
    {
      items, next := [], None;
      var i := 0;
      while i < |rest|
        invariant 0 <= i <= |rest|
        invariant |items| <= limit
        invariant items == Load(files, Keep(files, q, rest[..i]))
      {
        var name := rest[i];
        assert name in rest;
        assert rest[..i + 1][..i] == rest[..i];
        var event := files[name];
        if event.Some? && PassesOrder(q, event.value) {
          if |items| >= limit {
            next, stop := Some(name), i;
            return;
          }
          items := items + [event.value];
        }
        i := i + 1;
      }
      stop := i;
    }

    /** One page of the search. */
    method Search(q: Query, pageId: Option<string>, limit: nat, listing: seq<string>)
      returns (items: seq<BashEvent>, next: Option<string>)
      requires Distinct(listing) && (forall n :: n in listing <==> n in files)
      ensures IsPageOf(files, q, EffectiveCursor(files, q, pageId), limit, items, next)
      ensures |items| <= limit && (next.Some? ==> |items| == limit)
      ensures HoldsEvents(files) ==>
                forall i, j :: 0 <= i < j < |items| ==>
                                 if q.descending then !Before(items[i].at, items[j].at)
                                 else !Before(items[j].at, items[i].at)
      ensures HoldsEvents(files) && ValidQuery(q) ==>
                forall e :: e in items ==>
                              && FileName(e) in files && files[FileName(e)] == Some(e)
                              && (q.gte.Some? ==> !Before(e.at, q.gte.value))
                              && (q.lt.Some? ==> Before(e.at, q.lt.value))
                              && (q.kind.Some? ==> Kind(e) == q.kind.value)
                              && (q.command.Some? ==> e.BashOutput? && e.commandId == q.command.value)
                              && (q.orderGt.Some? && e.BashOutput? ==> e.order > q.orderGt.value)
    {
      items, next := FindPage(q, pageId, limit, listing);
      PageMeans(files, q, EffectiveCursor(files, q, pageId), limit, items, next);
    }

    method FindPage(q: Query, pageId: Option<string>, limit: nat, listing: seq<string>)
      returns (items: seq<BashEvent>, next: Option<string>)
      requires Distinct(listing) && (forall n :: n in listing <==> n in files)
      ensures IsPageOf(files, q, EffectiveCursor(files, q, pageId), limit, items, next)
    {
      var matched := Scan(q, listing);
      var start := Resolve(q, matched, pageId);
      var rest := matched[start..];
      ghost var stop;
      items, next, stop := Fill(q, rest, limit);
      RestInOrder(matched, start, q.descending);
      PageOfRest(files, q, EffectiveCursor(files, q, pageId), limit, rest, stop, items, next);
    }

    /** Delete the files older than the cutoff, oldest first, stopping at the first that is not.
        The pattern `*` leaves out names with a leading dot; a file in `stuck` cannot be unlinked. */
    method DeleteEventsOlderThan(cutoff: Timestamp, listing: seq<string>, stuck: set<string>) returns (count: nat)
      requires Distinct(listing) && (forall n :: n in listing <==> n in files && Visible(n))
      modifies this
      ensures forall n :: n in files <==>
                            n in old(files) && !(n != "" && n[0] != '.' && n !in stuck && Less(n, TimeString(cutoff)))
      ensures files == map n | n in old(files) && !Expires(n, cutoff, stuck) :: old(files)[n]
      ensures count == |set n | n in old(files) && Expires(n, cutoff, stuck)|
    {
      SortNamesInOrder(listing, false);
      var sorted := SortNames(listing, false);
      var bound := TimeString(cutoff);
      count := 0;
      var i := 0;
      ghost var gone: set<string> := {};
      while i < |sorted|
        invariant 0 <= i <= |sorted|
        invariant gone == ExpiredAmong(sorted[..i], cutoff, stuck)
        invariant files == Without(old(files), gone)
        invariant count == |gone|
      {
        if !Less(sorted[i], bound) {
          break;
        }
        assert sorted[i] in sorted;
        PrefixExcludes(sorted, i);
        ExpiredStep(sorted, i, cutoff, stuck);
        if sorted[i] !in stuck {
          WithoutStep(old(files), gone, sorted[i]);
          files := files - {sorted[i]};
          count := count + 1;
          gone := gone + {sorted[i]};
        }
        i := i + 1;
      }
      AllExpired(old(files), sorted, i, cutoff, stuck);
    }
  }

  /** When the loop stops, every file that expires is in the part gone through. */
  lemma AllExpired(files: Directory, sorted: seq<string>, i: nat, cutoff: Timestamp, stuck: set<string>)
    requires InOrder(sorted, false) && (forall n :: n in sorted <==> n in files && Visible(n))
    requires i <= |sorted| && (i < |sorted| ==> !Less(sorted[i], TimeString(cutoff)))
    ensures ExpiredAmong(sorted[..i], cutoff, stuck) == set n | n in files && Expires(n, cutoff, stuck)
    ensures Without(files, ExpiredAmong(sorted[..i], cutoff, stuck))
         == map n | n in files && !Expires(n, cutoff, stuck) :: files[n]
  {
    assert sorted == sorted[..i] + sorted[i..];
    if i < |sorted| {
      RestNotOlder(sorted, i, TimeString(cutoff));
    }
  }

  ghost function ExpiredAmong(names: seq<string>, cutoff: Timestamp, stuck: set<string>): set<string> {
    set n | n in names && Expires(n, cutoff, stuck)
  }

  ghost function Without(dir: Directory, gone: set<string>): Directory {
    map n | n in dir && n !in gone :: dir[n]
  }

  lemma ExpiredStep(sorted: seq<string>, i: nat, cutoff: Timestamp, stuck: set<string>)
    requires i < |sorted|
    ensures ExpiredAmong(sorted[..i + 1], cutoff, stuck)
         == ExpiredAmong(sorted[..i], cutoff, stuck) + if Expires(sorted[i], cutoff, stuck) then {sorted[i]} else {}
  {
    assert sorted[..i + 1] == sorted[..i] + [sorted[i]];
  }

  lemma WithoutStep(dir: Directory, gone: set<string>, name: string)
    ensures Without(dir, gone) - {name} == Without(dir, gone + {name})
  {
  }

  // ---------------------------------------------------------------------------------------
  // A page, on the events
  // ---------------------------------------------------------------------------------------

  /** Every file that loads holds a well-formed event under its own name, as the service saves it. */
  ghost predicate HoldsEvents(dir: Directory) {
    forall n :: n in dir && dir[n].Some? ==> WellFormed(dir[n].value) && FileName(dir[n].value) == n
  }

  /** Names in order are events in order of time, backwards when descending. */
  lemma NamesInTimeOrder(e: BashEvent, f: BashEvent, descending: bool)
    requires WellFormed(e) && WellFormed(f) && Precedes(FileName(e), FileName(f), descending)
    ensures if descending then !Before(e.at, f.at) else !Before(f.at, e.at)
  {
    var first, second := if descending then f else e, if descending then e else f;
    if Before(second.at, first.at) {
      NameOrderRefinesTime(second, first);
      LessTransitive(FileName(first), FileName(second), FileName(first));
      LessIrreflexive(FileName(first));
    }
  }

  /** The events that were asked for, on their contents. */
  predicate Wanted(q: Query, e: BashEvent) {
    && (q.gte.Some? ==> !Before(e.at, q.gte.value))
    && (q.lt.Some? ==> Before(e.at, q.lt.value))
    && (q.kind.Some? ==> Kind(e) == q.kind.value)
    && (q.command.Some? ==> e.BashOutput? && e.commandId == q.command.value)
    && (q.orderGt.Some? && e.BashOutput? ==> e.order > q.orderGt.value)
  }

  /** A page has its events in the order of their times, and only events that were asked for. */
  lemma PageMeans(dir: Directory, q: Query, cursor: Option<string>, limit: nat, items: seq<BashEvent>,
                  next: Option<string>)
    requires IsPageOf(dir, q, cursor, limit, items, next)
    ensures |items| <= limit && (next.Some? ==> |items| == limit)
    ensures HoldsEvents(dir) ==>
              forall i, j :: 0 <= i < j < |items| ==>
                               if q.descending then !Before(items[i].at, items[j].at)
                               else !Before(items[j].at, items[i].at)
    ensures HoldsEvents(dir) && ValidQuery(q) ==>
              forall e :: e in items ==> FileName(e) in dir && dir[FileName(e)] == Some(e) && Wanted(q, e)
  {
    var names :| IsPage(dir, q, cursor, limit, names, next) && items == Load(dir, names);
    if HoldsEvents(dir) {
      forall i | 0 <= i < |items| ensures WellFormed(items[i]) && FileName(items[i]) == names[i] {
        assert names[i] in names;
      }
      forall i, j | 0 <= i < j < |items|
        ensures if q.descending then !Before(items[i].at, items[j].at) else !Before(items[j].at, items[i].at)
      {
        NamesInTimeOrder(items[i], items[j], q.descending);
      }
      if ValidQuery(q) {
        forall e | e in items ensures FileName(e) in dir && dir[FileName(e)] == Some(e) && Wanted(q, e) {
          var i :| 0 <= i < |items| && items[i] == e;
          assert names[i] in names;
          NameIndexAgrees(q, e);
        }
      }
    }
  }

  /** And it skips none: a stored event that was asked for is in the page, unless its name lies before
      the cursor or not before the next one. */
  lemma PageSkipsNothing(dir: Directory, q: Query, cursor: Option<string>, limit: nat, items: seq<BashEvent>,
                         next: Option<string>, e: BashEvent)
    requires IsPageOf(dir, q, cursor, limit, items, next) && ValidQuery(q)
    requires WellFormed(e) && FileName(e) in dir && dir[FileName(e)] == Some(e)
    requires q.gte.Some? ==> !Before(e.at, q.gte.value)
    requires q.lt.Some? ==> Before(e.at, q.lt.value)
    requires q.kind.Some? ==> Kind(e) == q.kind.value
    requires q.command.Some? ==> e.BashOutput? && e.commandId == q.command.value
    requires q.orderGt.Some? && e.BashOutput? ==> e.order > q.orderGt.value
    ensures || e in items
            || (cursor.Some? && q.descending && Less(cursor.value, FileName(e)))
            || (cursor.Some? && !q.descending && Less(FileName(e), cursor.value))
            || (next.Some? && q.descending && !Less(next.value, FileName(e)))
            || (next.Some? && !q.descending && !Less(FileName(e), next.value))
  {
    var names :| IsPage(dir, q, cursor, limit, names, next) && items == Load(dir, names);
    NameIndexAgrees(q, e);
    assert Selected(dir, q, FileName(e));
    if FileName(e) in names {
      var i :| 0 <= i < |names| && names[i] == FileName(e);
      assert items[i] == e;
    }
  }

  lemma SuffixFromCursor(matched: seq<string>, i: nat, descending: bool)
    requires InOrder(matched, descending) && i < |matched|
    ensures forall n :: n in matched[i..] <==> n in matched && From(Some(matched[i]), n, descending)
  {
    forall n ensures n in matched[i..] <==> n in matched && From(Some(matched[i]), n, descending) {
      if n in matched {
        var k :| 0 <= k < |matched| && matched[k] == n;
        PrecedesIsStrictOrder(matched[i], n, n, descending);
        if k >= i { assert matched[i..][k - i] == n; }
        if n in matched[i..] {
          var m :| 0 <= m < |matched[i..]| && matched[i..][m] == n;
          assert matched[m + i] == n;
        }
      }
    }
  }

  lemma RestInOrder(matched: seq<string>, start: nat, descending: bool)
    requires InOrder(matched, descending) && start <= |matched|
    ensures InOrder(matched[start..], descending)
  {
  }

  /** Filling a page from the names at and after the cursor gives the page at that cursor. */
  lemma PageOfRest(dir: Directory, q: Query, cursor: Option<string>, limit: nat, rest: seq<string>, stop: nat,
                   items: seq<BashEvent>, next: Option<string>)
    requires InOrder(rest, q.descending)
    requires forall n :: n in rest <==> n in dir && NameMatches(q, n) && From(cursor, n, q.descending)
    requires stop <= |rest| && |items| <= limit && items == Load(dir, Keep(dir, q, rest[..stop]))
    requires next.None? ==> stop == |rest|
    requires next.Some? ==>
               |items| == limit && stop < |rest| && next.value == rest[stop] && Selected(dir, q, rest[stop])
    ensures IsPageOf(dir, q, cursor, limit, items, next)
  {
    var names := Keep(dir, q, rest[..stop]);
    KeepInOrder(dir, q, rest[..stop]);
    if next.Some? {
      FullPage(dir, q, cursor, rest, stop, names);
    } else {
      assert rest[..stop] == rest;
    }
    assert IsPage(dir, q, cursor, limit, names, next);
  }

  lemma FullPage(dir: Directory, q: Query, cursor: Option<string>, rest: seq<string>, i: nat, names: seq<string>)
    requires InOrder(rest, q.descending) && i < |rest| && InOrder(names, q.descending)
    requires forall n :: n in rest ==> From(cursor, n, q.descending)
    requires forall n :: Selected(dir, q, n) && From(cursor, n, q.descending) ==> n in rest
    requires forall n :: n in names <==> n in rest[..i] && Selected(dir, q, n)
    requires Selected(dir, q, rest[i])
    ensures IsPage(dir, q, cursor, |names|, names, Some(rest[i]))
  {
    assert rest[i] in rest;
    forall n | n in rest && Selected(dir, q, n) ensures n in names <==> Precedes(n, rest[i], q.descending) {
      var k :| 0 <= k < |rest| && rest[k] == n;
      PrecedesIsStrictOrder(n, rest[i], n, q.descending);
      if k < i { assert rest[..i][k] == n; }
      if n in rest[..i] {
        var m :| 0 <= m < i && rest[..i][m] == n;
        assert rest[m] == n;
      }
    }
  }

  lemma RestNotOlder(sorted: seq<string>, i: nat, bound: string)
    requires InOrder(sorted, false) && i < |sorted| && !Less(sorted[i], bound)
    ensures forall n :: n in sorted[i..] ==> !Less(n, bound)
  {
    forall n | n in sorted[i..] ensures !Less(n, bound) {
      var k :| 0 <= k < |sorted[i..]| && sorted[i..][k] == n;
      if k > 0 {
        assert Precedes(sorted[i], sorted[i + k], false);
        if Less(n, bound) { LessTransitive(sorted[i], n, bound); }
      }
    }
  }

  lemma PrefixExcludes(sorted: seq<string>, i: nat)
    requires InOrder(sorted, false) && i < |sorted|
    ensures sorted[i] !in sorted[..i]
  {
    LessIrreflexive(sorted[i]);
    forall k | 0 <= k < i ensures sorted[k] != sorted[i] {
      assert Precedes(sorted[k], sorted[i], false);
    }
  }

  // ---------------------------------------------------------------------------------------
  // Retention against search
  // ---------------------------------------------------------------------------------------

  predicate Visible(name: string) {
    name != "" && name[0] != '.'
  }

  predicate Expires(name: string, cutoff: Timestamp, stuck: set<string>) {
    Visible(name) && name !in stuck && Less(name, TimeString(cutoff))
  }

  function AtOrAfter(cutoff: Timestamp): Query {
    Query(None, None, Some(cutoff), None, None, false)
  }

  lemma TimeStringStartsWithDigit(t: Timestamp)
    requires ValidTime(t)
    ensures |TimeString(t)| > 0 && '0' <= TimeString(t)[0] <= '9'
  {
    assert TimeString(t) == Digits(t.year, 4) + Format(Fields(t)[1..], WIDTHS[1..]);
  }

  /** A name the pattern skips is older than every time, so the search never selects it. */
  lemma HiddenIsOlder(name: string, t: Timestamp)
    requires ValidTime(t) && !Visible(name)
    ensures Less(name, TimeString(t))
  {
    TimeStringStartsWithDigit(t);
  }

  /** When every unlink succeeds, what the retention loop leaves is exactly what a search from
      the cutoff selects by name, if and only if the directory holds no hidden file. */
  lemma RetentionEqualsSearch(files: Directory, cutoff: Timestamp)
    requires ValidTime(cutoff)
    ensures (forall n :: n in files ==> (!Expires(n, cutoff, {}) <==> NameMatches(AtOrAfter(cutoff), n)))
         <==> (forall n :: n in files ==> Visible(n))
  {
    forall n | n in files
      ensures (!Expires(n, cutoff, {}) <==> NameMatches(AtOrAfter(cutoff), n)) <==> Visible(n)
    {
      if !Visible(n) { HiddenIsOlder(n, cutoff); }
    }
  }

  /** A hidden file is older than any cutoff, yet the retention loop keeps it. */
  lemma HiddenFileIsKept(files: Directory, cutoff: Timestamp)
    requires ValidTime(cutoff) && files == map[".tmp" := None]
    ensures !Expires(".tmp", cutoff, {}) && !NameMatches(AtOrAfter(cutoff), ".tmp")
    ensures !forall n :: n in files ==> (!Expires(n, cutoff, {}) <==> NameMatches(AtOrAfter(cutoff), n))
  {
    HiddenIsOlder(".tmp", cutoff);
    assert ".tmp" in files;
  }

  /** The files the service itself writes are never hidden, so for them retention keeps exactly
      the events at or after the cutoff. */
  lemma RetentionKeepsExactlyRecent(e: BashEvent, cutoff: Timestamp)
    requires WellFormed(e) && ValidTime(cutoff)
    ensures Expires(FileName(e), cutoff, {}) <==> Before(e.at, cutoff)
  {
    NameAgainstTime(e, cutoff);
    TimeStringStartsWithDigit(e.at);
    assert FileName(e)[0] == TimeString(e.at)[0];
  }

  // ---------------------------------------------------------------------------------------
  // Following next_page_id while files are being added
  // ---------------------------------------------------------------------------------------

  /** Files may appear, and a file being written may become loadable; nothing else changes. */
  ghost predicate Grows(d: Directory, d': Directory) {
    forall n :: n in d ==> n in d' && (d[n].Some? ==> d'[n] == d[n])
  }

  datatype Visit = Visit(dir: Directory, names: seq<string>, next: Option<string>)

  ghost function CursorOf(vs: seq<Visit>, k: nat): Option<string>
    requires k < |vs|
  {
    if k == 0 then None else vs[k - 1].next
  }

  ghost predicate GoodVisit(q: Query, limit: nat, vs: seq<Visit>, k: nat)
    requires k < |vs|
  {
    && "" !in vs[k].dir
    && IsPage(vs[k].dir, q, EffectiveCursor(vs[k].dir, q, CursorOf(vs, k)), limit, vs[k].names, vs[k].next)
    && (k > 0 ==> vs[k - 1].next.Some? && Grows(vs[k - 1].dir, vs[k].dir))
  }

  /** A client asks for the first page, then for each page that the previous one points at. */
  ghost predicate Paging(q: Query, limit: nat, vs: seq<Visit>) {
    |vs| > 0 && forall k :: 0 <= k < |vs| ==> GoodVisit(q, limit, vs, k)
  }

  ghost function AllNames(vs: seq<Visit>): seq<string> {
    if vs == [] then [] else AllNames(vs[..|vs| - 1]) + vs[|vs| - 1].names
  }

  lemma GrowsKeepsSelected(d: Directory, d': Directory, q: Query, n: string)
    requires Grows(d, d') && Selected(d, q, n)
    ensures Selected(d', q, n) && d'[n] == d[n]
  {
  }

  /** The cursor is found again, so a page is taken from it and not from the start. */
  lemma CursorIsEffective(q: Query, limit: nat, vs: seq<Visit>, k: nat)
    requires Paging(q, limit, vs) && k < |vs|
    ensures EffectiveCursor(vs[k].dir, q, CursorOf(vs, k)) == CursorOf(vs, k)
  {
    if k > 0 {
      assert GoodVisit(q, limit, vs, k) && GoodVisit(q, limit, vs, k - 1);
      var c := vs[k - 1].next.value;
      assert Selected(vs[k - 1].dir, q, c);
      GrowsKeepsSelected(vs[k - 1].dir, vs[k].dir, q, c);
    }
  }

  lemma PagingPrefix(q: Query, limit: nat, vs: seq<Visit>)
    requires Paging(q, limit, vs) && |vs| > 1
    ensures Paging(q, limit, vs[..|vs| - 1])
  {
    var ws := vs[..|vs| - 1];
    forall k | 0 <= k < |ws| ensures GoodVisit(q, limit, ws, k) {
      assert GoodVisit(q, limit, vs, k) && CursorOf(ws, k) == CursorOf(vs, k);
    }
  }

  lemma {:induction false} PagesInOrder(q: Query, limit: nat, vs: seq<Visit>)
    requires Paging(q, limit, vs)
    ensures InOrder(AllNames(vs), q.descending)
    ensures vs[|vs| - 1].next.Some? ==>
              forall n :: n in AllNames(vs) ==> Precedes(n, vs[|vs| - 1].next.value, q.descending)
  {
    var last := |vs| - 1;
    CursorIsEffective(q, limit, vs, last);
    assert GoodVisit(q, limit, vs, last);
    var front, page, next := AllNames(vs[..last]), vs[last].names, vs[last].next;
    if last > 0 {
      PagingPrefix(q, limit, vs);
      PagesInOrder(q, limit, vs[..last]);
      forall x, y | x in front && (y in page || next == Some(y)) ensures Precedes(x, y, q.descending) {
        AcrossCursor(x, vs[last - 1].next.value, y, q.descending);
      }
    }
    ConcatInOrder(front, page, q.descending);
  }

  lemma AcrossCursor(x: string, c: string, y: string, descending: bool)
    requires Precedes(x, c, descending) && !Precedes(y, c, descending)
    ensures Precedes(x, y, descending)
  {
    PrecedesIsStrictOrder(c, y, y, descending);
    PrecedesIsStrictOrder(x, c, y, descending);
  }

  lemma {:induction false} PagesCover(q: Query, limit: nat, vs: seq<Visit>, n: string)
    requires Paging(q, limit, vs) && Selected(vs[0].dir, q, n)
    requires vs[|vs| - 1].next.Some? ==> Precedes(n, vs[|vs| - 1].next.value, q.descending)
    ensures n in AllNames(vs) && Selected(vs[|vs| - 1].dir, q, n) && vs[|vs| - 1].dir[n] == vs[0].dir[n]
  {
    var last := |vs| - 1;
    CursorIsEffective(q, limit, vs, last);
    assert GoodVisit(q, limit, vs, last);
    if last == 0 {
      assert n in vs[0].names;
    } else {
      PagingPrefix(q, limit, vs);
      var ws := vs[..last];
      StaysSelected(q, limit, vs, last, n);
      if Precedes(n, vs[last - 1].next.value, q.descending) {
        PagesCover(q, limit, ws, n);
      } else {
        assert n in vs[last].names;
      }
    }
  }

  lemma {:induction false} StaysSelected(q: Query, limit: nat, vs: seq<Visit>, k: nat, n: string)
    requires Paging(q, limit, vs) && k < |vs| && Selected(vs[0].dir, q, n)
    ensures Selected(vs[k].dir, q, n) && vs[k].dir[n] == vs[0].dir[n]
  {
    if k > 0 {
      StaysSelected(q, limit, vs, k - 1, n);
      assert GoodVisit(q, limit, vs, k);
      GrowsKeepsSelected(vs[k - 1].dir, vs[k].dir, q, n);
    }
  }

  /** Paging under concurrent appends: however many files appear between requests, the names
      returned over all pages are in order, so none is returned twice, and once the last page has
      no successor every event that was there at the first request has been returned. */
  lemma PagingUnderAppends(q: Query, limit: nat, vs: seq<Visit>)
    requires Paging(q, limit, vs)
    ensures InOrder(AllNames(vs), q.descending) && Distinct(AllNames(vs))
    ensures vs[|vs| - 1].next.None? ==> forall n :: Selected(vs[0].dir, q, n) ==> n in AllNames(vs)
  {
    PagesInOrder(q, limit, vs);
    var all := AllNames(vs);
    forall i, j | 0 <= i < j < |all| ensures all[i] != all[j] {
      PrecedesIsStrictOrder(all[i], all[j], all[j], q.descending);
    }
    if vs[|vs| - 1].next.None? {
      forall n | Selected(vs[0].dir, q, n) ensures n in AllNames(vs) {
        PagesCover(q, limit, vs, n);
      }
    }
  }

  /** Over all pages of a session, the events returned are in the order of their times. */
  lemma PagesInTimeOrder(q: Query, limit: nat, vs: seq<Visit>, i: nat, j: nat, e: BashEvent, f: BashEvent)
    requires Paging(q, limit, vs) && i < j < |AllNames(vs)|
    requires WellFormed(e) && WellFormed(f) && FileName(e) == AllNames(vs)[i] && FileName(f) == AllNames(vs)[j]
    ensures if q.descending then !Before(e.at, f.at) else !Before(f.at, e.at)
  {
    PagesInOrder(q, limit, vs);
    NamesInTimeOrder(e, f, q.descending);
  }

  lemma {:induction false} NamesComeFromPages(vs: seq<Visit>, n: string) returns (k: nat)
    requires n in AllNames(vs)
    ensures k < |vs| && n in vs[k].names
  {
    var last := |vs| - 1;
    if n in vs[last].names {
      k := last;
    } else {
      k := NamesComeFromPages(vs[..last], n);
    }
  }

  /** Paging refines plain filtering: over a fixed directory the pages concatenate to the list of
      selected names in order, every page but the last is full, no later page is empty, and the
      number of pages is bounded by the number of selected names. */
  lemma PagingRefinesFiltering(q: Query, limit: nat, vs: seq<Visit>, dir: Directory, all: seq<string>)
    requires limit >= 1 && Paging(q, limit, vs) && (forall k :: 0 <= k < |vs| ==> vs[k].dir == dir)
    requires InOrder(all, q.descending) && (forall n :: n in all <==> Selected(dir, q, n))
    ensures vs[|vs| - 1].next.None? ==> AllNames(vs) == all
    ensures forall k :: 0 <= k < |vs| - 1 ==> |vs[k].names| == limit
    ensures forall k :: 0 < k < |vs| ==> vs[k].names != []
    ensures (|vs| - 1) * limit <= |all|
  {
    PagingUnderAppends(q, limit, vs);
    forall n | n in AllNames(vs) ensures n in all {
      var k := NamesComeFromPages(vs, n);
      assert GoodVisit(q, limit, vs, k);
    }
    if vs[|vs| - 1].next.None? {
      assert vs[0].dir == dir;
      InOrderUnique(AllNames(vs), all, q.descending);
    }
    FullPages(q, limit, vs);
    FullPagesCount(limit, vs);
    DistinctWithin(AllNames(vs), all);
  }

  lemma FullPages(q: Query, limit: nat, vs: seq<Visit>)
    requires limit >= 1 && Paging(q, limit, vs)
    ensures forall k :: 0 <= k < |vs| - 1 ==> |vs[k].names| == limit
    ensures forall k :: 0 < k < |vs| ==> vs[k].names != []
  {
    forall k | 0 <= k < |vs| - 1 ensures |vs[k].names| == limit {
      assert GoodVisit(q, limit, vs, k) && GoodVisit(q, limit, vs, k + 1);
    }
    forall k | 0 < k < |vs| ensures vs[k].names != [] {
      assert GoodVisit(q, limit, vs, k) && GoodVisit(q, limit, vs, k - 1);
      CursorIsEffective(q, limit, vs, k);
      GrowsKeepsSelected(vs[k - 1].dir, vs[k].dir, q, vs[k - 1].next.value);
      PageHoldsCursor(vs[k].dir, q, vs[k - 1].next.value, limit, vs[k].names, vs[k].next);
    }
  }

  lemma PageHoldsCursor(dir: Directory, q: Query, c: string, limit: nat, names: seq<string>, next: Option<string>)
    requires limit >= 1 && IsPage(dir, q, Some(c), limit, names, next) && Selected(dir, q, c)
    ensures names != []
  {
    PrecedesIsStrictOrder(c, c, c, q.descending);
  }

  lemma {:induction false} FullPagesCount(limit: nat, vs: seq<Visit>)
    requires |vs| > 0 && forall k :: 0 <= k < |vs| - 1 ==> |vs[k].names| == limit
    ensures |AllNames(vs)| == (|vs| - 1) * limit + |vs[|vs| - 1].names|
  {
    var ws := vs[..|vs| - 1];
    if |vs| > 1 {
      FullPagesCount(limit, ws);
    }
  }

  lemma {:induction false} DistinctWithin(s: seq<string>, t: seq<string>)
    requires Distinct(s) && forall n :: n in s ==> n in t
    ensures |s| <= |t|
  {
    if s != [] {
      assert s[0] in s;
      var k :| 0 <= k < |t| && t[k] == s[0];
      var t' := t[..k] + t[k + 1..];
      forall n | n in s[1..] ensures n in t' {
        assert n in s && n != s[0];
        var m :| 0 <= m < |t| && t[m] == n;
        assert if m < k then t'[m] == n else t'[m - 1] == n;
      }
      DistinctWithin(s[1..], t');
    }
  }
}
