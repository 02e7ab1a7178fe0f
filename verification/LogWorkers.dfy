/**
  The workers of HW_10-Log-Parser/parser.c: `process_file` on a thread's own tables, and every interleaving of
  `thread_func` under its two mutexes.
 */
module LogWorkers {
  import opened LogTables

  /**
    A line as `parse_log_line` leaves it: rejected, or a URL that is not empty, a byte count, and a referer or none.
   */
  datatype Line = Rejected | Visit(url: seq<int>, bytes: int, referer: seq<int>)

  type Lines = seq<Line>

  predicate Parsed(line: Line) {
    line.Visit? ==> line.url != []
  }

  ghost predicate AllParsed(lines: Lines) {
    forall i {:trigger lines[i]} :: 0 <= i < |lines| ==> Parsed(lines[i])
  }

  // ---------- what a file adds ----------

  function UrlLog(lines: Lines): Chain {
    if lines == [] then []
    else
      var last := lines[|lines| - 1];
      UrlLog(lines[..|lines| - 1]) + (if last.Visit? then [Node(last.url, last.bytes)] else [])
  }

  function RefererLogOf(lines: Lines): Chain {
    if lines == [] then []
    else
      var last := lines[|lines| - 1];
      RefererLogOf(lines[..|lines| - 1]) +
      (if last.Visit? && Counted(last.referer) then [Node(last.referer, 1)] else [])
  }

  // ---------- the same, counted line by line ----------

  /** The bytes that the lines give for this URL. */
  function UrlBytes(lines: Lines, url: seq<int>): int {
    if lines == [] then 0
    else
      var last := lines[|lines| - 1];
      UrlBytes(lines[..|lines| - 1], url) + if last.Visit? && last.url == url then last.bytes else 0
  }

  /** Line `k` requests this URL. */
  predicate Names(lines: Lines, k: int, url: seq<int>) {
    0 <= k < |lines| && lines[k].Visit? && lines[k].url == url
  }

  ghost predicate Requested(lines: Lines, url: seq<int>) {
    exists k :: Names(lines, k, url)
  }

  /** How many lines name this referer; one that is empty or a dash is none. */
  function RefererVisits(lines: Lines, referer: seq<int>): nat {
    if lines == [] || referer == [] || referer == ['-' as int] then 0
    else
      var last := lines[|lines| - 1];
      RefererVisits(lines[..|lines| - 1], referer) + if last.Visit? && last.referer == referer then 1 else 0
  }

  function LineBytes(lines: Lines): int {
    if lines == [] then 0
    else
      var last := lines[|lines| - 1];
      LineBytes(lines[..|lines| - 1]) + if last.Visit? then last.bytes else 0
  }

  /** The logs of the lines hold what the lines give. */
  lemma {:induction false} LogsSum(lines: Lines, key: seq<int>)
    ensures Sum(UrlLog(lines), key) == UrlBytes(lines, key) && Total(UrlLog(lines)) == LineBytes(lines)
    ensures Sum(RefererLogOf(lines), key) == RefererVisits(lines, key)
    ensures Has(UrlLog(lines), key) <==> Requested(lines, key)
    decreases lines
  {
    if lines != [] {
      var n := |lines| - 1;
      var last := lines[n];
      var url := if last.Visit? then [Node(last.url, last.bytes)] else [];
      var referer := if last.Visit? && Counted(last.referer) then [Node(last.referer, 1)] else [];
      LogsSum(lines[..n], key);
      SumConcat(UrlLog(lines[..n]), url, key);
      SumConcat(RefererLogOf(lines[..n]), referer, key);
      OneNode(url, key);
      OneNode(referer, key);
      LineAmong(lines, n, key);
      if last.Visit? { assert url[0].key == last.url; }
    }
  }

  lemma OneNode(c: Chain, key: seq<int>)
    requires |c| <= 1
    ensures Sum(c, key) == if |c| == 1 && c[0].key == key then c[0].amount else 0
    ensures Total(c) == if |c| == 1 then c[0].amount else 0
  {
    if |c| == 1 { assert c[1..] == []; }
  }

  lemma LineAmong(lines: Lines, n: nat, key: seq<int>)
    requires |lines| == n + 1
    ensures Requested(lines, key) <==> Requested(lines[..n], key) || Names(lines, n, key)
  {
    forall k ensures k != n ==> (Names(lines, k, key) <==> Names(lines[..n], k, key)) {}
  }

  /** The tables and the byte count of a thread. */
  datatype Stats = Stats(url: Table, referer: Table, bytes: int)

  /** `process_file` on the statistics of a thread. */
  function Process(s: Stats, lines: Lines): (r: Stats)
    requires |s.url| > 0 && |s.referer| > 0
    ensures |r.url| == |s.url| && |r.referer| == |s.referer|
    decreases lines
  {
    if lines == [] then s
    else
      var before := Process(s, lines[..|lines| - 1]);
      var last := lines[|lines| - 1];
      if last.Rejected? then before
      else Stats(UpdateUrl(before.url, last.url, last.bytes), UpdateReferer(before.referer, last.referer),
                 before.bytes + last.bytes)
  }

  /** The statistics are exactly what these two logs add up to. */
  ghost predicate Shows(s: Stats, urls: Chain, referers: Chain) {
    Reflects(s.url, urls) && Reflects(s.referer, referers) && Counts(s.referer) && s.bytes == Total(urls)
  }

  lemma VisitShows(s: Stats, urls: Chain, referers: Chain, url: seq<int>, bytes: int, referer: seq<int>)
    requires Shows(s, urls, referers) && url != []
    ensures Shows(Stats(UpdateUrl(s.url, url, bytes), UpdateReferer(s.referer, referer), s.bytes + bytes),
                  urls + [Node(url, bytes)], referers + (if Counted(referer) then [Node(referer, 1)] else []))
  {
    PutReflects(s.url, urls, url, bytes);
    SumConcat(urls, [Node(url, bytes)], []);
    assert Total([Node(url, bytes)]) == bytes;
    UpdateCounts(s.referer, referer);
    if Counted(referer) {
      PutReflects(s.referer, referers, referer, 1);
    } else {
      assert referers + [] == referers;
    }
  }

  lemma {:induction false} ProcessShows(s: Stats, urls: Chain, referers: Chain, lines: Lines)
    requires Shows(s, urls, referers) && AllParsed(lines)
    ensures Shows(Process(s, lines), urls + UrlLog(lines), referers + RefererLogOf(lines))
    decreases lines
  {
    if lines == [] {
      assert urls + [] == urls && referers + [] == referers;
    } else {
      var n := |lines| - 1;
      var last, u, f := lines[n], UrlLog(lines[..n]), RefererLogOf(lines[..n]);
      ProcessShows(s, urls, referers, lines[..n]);
      if last.Visit? {
        assert Parsed(last);
        VisitShows(Process(s, lines[..n]), urls + u, referers + f, last.url, last.bytes, last.referer);
        Regroup(urls, u, [Node(last.url, last.bytes)]);
        Regroup(referers, f, if Counted(last.referer) then [Node(last.referer, 1)] else []);
      } else {
        assert u + [] == u && f + [] == f;
      }
    }
  }

  lemma Regroup(a: Chain, b: Chain, c: Chain)
    ensures a + b + c == a + (b + c)
  {
  }

  /** `ThreadData` */
  class ThreadData {
    const urlTable: HashTable
    const refererTable: HashTable
    var threadTotalBytes: int

    ghost predicate Valid()
      reads this, urlTable, refererTable
    {
      urlTable.Valid() && refererTable.Valid() && urlTable.buckets != refererTable.buckets
    }

    ghost function Now(): Stats
      reads this, urlTable, refererTable, urlTable.buckets, refererTable.buckets
    {
      Stats(urlTable.buckets[..], refererTable.buckets[..], threadTotalBytes)
    }

    /** The start of `thread_func`. */
    constructor (size: nat)
      requires size > 0
      ensures Valid() && fresh(urlTable) && fresh(refererTable)
      ensures fresh(urlTable.buckets) && fresh(refererTable.buckets)
      ensures Shows(Now(), [], [])
    {
      urlTable := new HashTable(size);
      refererTable := new HashTable(size);
      threadTotalBytes := 0;
    }

    /** `process_file` */
    method ProcessFile(lines: Lines)
      requires Valid()
      modifies this, urlTable.buckets, refererTable.buckets
      ensures Valid() && Now() == Process(old(Now()), lines)
    {
      var i := 0;
      assert lines[..0] == [];
      while i < |lines|
        invariant 0 <= i <= |lines|
        invariant Valid() && Now() == Process(old(Now()), lines[..i])
      {
        assert lines[..i + 1][..i] == lines[..i];
        if lines[i].Visit? {
          CountVisit(lines[i].url, lines[i].bytes, lines[i].referer);
        }
        i := i + 1;
      }
      assert lines[..i] == lines;
    }

    method CountVisit(url: seq<int>, bytes: int, referer: seq<int>)
      requires Valid()
      modifies this, urlTable.buckets, refererTable.buckets
      ensures Valid()
      ensures Now() == Stats(UpdateUrl(old(Now()).url, url, bytes), UpdateReferer(old(Now()).referer, referer),
                             old(Now()).bytes + bytes)
    {
      threadTotalBytes := threadTotalBytes + bytes;
      urlTable.AddUrl(url, bytes);
      refererTable.AddReferer(referer);
    }

    /** The critical section at the end of `thread_func`. */
    method MergeInto(global: ThreadData)
      requires Valid() && global.Valid()
      requires urlTable.buckets != global.urlTable.buckets && refererTable.buckets != global.refererTable.buckets
      requires urlTable.buckets != global.refererTable.buckets && refererTable.buckets != global.urlTable.buckets
      requires this != global
      modifies global, global.urlTable.buckets, global.refererTable.buckets
      ensures global.Valid() && global.Now() == Merge(Now(), old(global.Now()))
      ensures Now() == old(Now())
    {
      global.threadTotalBytes := global.threadTotalBytes + threadTotalBytes;
      global.urlTable.MergeUrlsFrom(urlTable);
      global.refererTable.MergeReferersFrom(refererTable);
    }
  }

  function Merge(s: Stats, global: Stats): (r: Stats)
    requires |global.url| > 0 && |global.referer| > 0
    ensures |r.url| == |global.url| && |r.referer| == |global.referer|
  {
    Stats(MergeUrls(s.url, global.url), MergeReferers(s.referer, global.referer), global.bytes + s.bytes)
  }

  lemma MergeShows(s: Stats, urls: Chain, referers: Chain, global: Stats, gurls: Chain, greferers: Chain)
    requires Shows(s, urls, referers) && Shows(global, gurls, greferers)
    ensures Shows(Merge(s, global), gurls + urls, greferers + referers)
  {
    MergeUrlsReflects(s.url, urls, global.url, gurls);
    MergeReferersReflects(s.referer, referers, global.referer, greferers);
    SumConcat(gurls, urls, []);
  }

  // ---------- every interleaving ----------

  const HASH_TABLE_SIZE: nat := 2048

  /**
    Where a thread is between two atomic steps: about to take the file mutex, processing a file, about to take the
    statistics mutex, or finished.
   */
  datatype Phase = Idle | Busy(file: nat) | Leaving | Finished

  /** A thread: its phase, its statistics, and the files it has processed so far. */
  datatype Worker = Worker(phase: Phase, stats: Stats, seen: seq<nat>)

  /** The shared file index, the threads, the global statistics, and the files merged into them. */
  datatype State = State(next: nat, workers: seq<Worker>, global: Stats, merged: seq<nat>)

  function EmptyTable(size: nat): (t: Table)
    ensures |t| == size && forall b :: 0 <= b < size ==> t[b] == []
  {
    seq(size, _ => [])
  }

  function EmptyStats(size: nat): Stats {
    Stats(EmptyTable(size), EmptyTable(size), 0)
  }

  function Start(threads: nat): State {
    State(0, seq(threads, _ => Worker(Idle, EmptyStats(HASH_TABLE_SIZE), [])), EmptyStats(2 * HASH_TABLE_SIZE), [])
  }

  predicate Sized(s: Stats) {
    |s.url| > 0 && |s.referer| > 0
  }

  /**
    The next atomic step of thread `w`: under the file mutex it takes the next file or finds that there is none; under
    the statistics mutex it merges; processing a file touches nothing shared.
   */
  function Step(files: seq<Lines>, s: State, w: nat): State
    requires w < |s.workers| && Sized(s.global) && Sized(s.workers[w].stats)
  {
    var me := s.workers[w];
    match me.phase
    case Idle =>
      if s.next < |files| then
        s.(next := s.next + 1, workers := s.workers[w := me.(phase := Busy(s.next))])
      else
        s.(workers := s.workers[w := me.(phase := Leaving)])
    case Leaving =>
      s.(workers := s.workers[w := me.(phase := Finished)], global := Merge(me.stats, s.global),
         merged := s.merged + me.seen)
    case Busy(file) =>
      var lines := if file < |files| then files[file] else [];
      s.(workers := s.workers[w := Worker(Idle, Process(me.stats, lines), me.seen + [file])])
    case Finished => s
  }

  ghost predicate AllSized(s: State) {
    Sized(s.global) && forall w {:trigger s.workers[w]} :: 0 <= w < |s.workers| ==> Sized(s.workers[w].stats)
  }

  lemma StepKeepsSized(files: seq<Lines>, s: State, w: nat)
    requires AllSized(s) && w < |s.workers|
    ensures AllSized(Step(files, s, w)) && |Step(files, s, w).workers| == |s.workers|
  {
    var r := Step(files, s, w);
    forall v {:trigger r.workers[v]} | 0 <= v < |r.workers| ensures Sized(r.workers[v].stats) {
      assert Sized(s.workers[v].stats);
    }
  }

  /** A run under any schedule: each entry names the thread that makes the next step, or none. */
  ghost function Run(files: seq<Lines>, s: State, schedule: seq<nat>): (r: State)
    requires AllSized(s)
    ensures AllSized(r) && |r.workers| == |s.workers|
    decreases schedule
  {
    if schedule == [] then s
    else
      var before := Run(files, s, schedule[..|schedule| - 1]);
      var w := schedule[|schedule| - 1];
      if w < |before.workers| then
        StepKeepsSized(files, before, w);
        Step(files, before, w)
      else before
  }

  // ---------- what every step keeps ----------

  /** The logs of a list of files. */
  function UrlsOf(files: seq<Lines>, order: seq<nat>): Chain
    decreases order
  {
    if order == [] then []
    else UrlsOf(files, order[..|order| - 1]) + UrlLog(FileAt(files, order[|order| - 1]))
  }

  function ReferersOf(files: seq<Lines>, order: seq<nat>): Chain
    decreases order
  {
    if order == [] then []
    else ReferersOf(files, order[..|order| - 1]) + RefererLogOf(FileAt(files, order[|order| - 1]))
  }

  function FileAt(files: seq<Lines>, i: nat): Lines {
    if i < |files| then files[i] else []
  }

  ghost predicate Faithful(files: seq<Lines>, s: Stats, order: seq<nat>) {
    Shows(s, UrlsOf(files, order), ReferersOf(files, order))
  }

  /** The files a thread has taken and not yet merged. */
  function Claim(w: Worker): seq<nat> {
    match w.phase
    case Idle => w.seen
    case Leaving => w.seen
    case Busy(file) => w.seen + [file]
    case Finished => []
  }

  function ClaimList(workers: seq<Worker>): (claims: seq<seq<nat>>)
    ensures |claims| == |workers|
    ensures forall w {:trigger claims[w]} :: 0 <= w < |workers| ==> claims[w] == Claim(workers[w])
  {
    seq(|workers|, w requires 0 <= w < |workers| => Claim(workers[w]))
  }

  /** How often a file occurs in these lists. */
  function Held(lists: seq<seq<nat>>, file: nat): nat {
    if lists == [] then 0 else Held(lists[..|lists| - 1], file) + multiset(lists[|lists| - 1])[file]
  }

  function Indices(n: nat): seq<nat> {
    if n == 0 then [] else Indices(n - 1) + [n - 1]
  }

  /** All statistics are exactly those of the files they are said to cover. */
  ghost predicate StatsHold(files: seq<Lines>, s: State) {
    && Faithful(files, s.global, s.merged)
    && forall w {:trigger s.workers[w]} :: 0 <= w < |s.workers| ==>
      Faithful(files, s.workers[w].stats, s.workers[w].seen)
  }

  /** The thread has found no file left. */
  predicate Past(w: Worker) {
    w.phase.Leaving? || w.phase.Finished?
  }

  /** Every file index given out so far is held by exactly one thread or merged, exactly once. */
  ghost predicate ClaimsHold(n: nat, next: nat, merged: seq<nat>, workers: seq<Worker>) {
    && next <= n
    && (forall w {:trigger workers[w]} :: 0 <= w < |workers| && Past(workers[w]) ==> next == n)
    && forall file: nat {:trigger multiset(Indices(next))[file]} ::
         multiset(merged)[file] + Held(ClaimList(workers), file) == multiset(Indices(next))[file]
  }

  ghost predicate Inv(files: seq<Lines>, s: State) {
    StatsHold(files, s) && ClaimsHold(|files|, s.next, s.merged, s.workers)
  }

  lemma {:induction false} StartHolds(files: seq<Lines>, threads: nat)
    ensures AllSized(Start(threads)) && Inv(files, Start(threads))
  {
    var s := Start(threads);
    EmptyReflects(s.global.url);
    EmptyReflects(EmptyTable(HASH_TABLE_SIZE));
    forall file: nat {:trigger multiset(Indices(0))[file]} ensures Held(ClaimList(s.workers), file) == 0 {
      NoClaims(ClaimList(s.workers), file);
    }
  }

  lemma {:induction false} NoClaims(lists: seq<seq<nat>>, file: nat)
    requires forall w {:trigger lists[w]} :: 0 <= w < |lists| ==> lists[w] == []
    ensures Held(lists, file) == 0
    decreases |lists|
  {
    if lists != [] { NoClaims(lists[..|lists| - 1], file); }
  }

  /** Changing one list changes the count by that list. */
  lemma {:induction false} HeldUpdate(lists: seq<seq<nat>>, w: nat, list: seq<nat>, file: nat)
    requires w < |lists|
    ensures Held(lists[w := list], file) + multiset(lists[w])[file] == Held(lists, file) + multiset(list)[file]
    decreases |lists|
  {
    var last, now := |lists| - 1, lists[w := list];
    if w == last {
      assert now[..last] == lists[..last];
    } else {
      assert now[..last] == lists[..last][w := list] && now[last] == lists[last];
      HeldUpdate(lists[..last], w, list, file);
    }
  }

  lemma ClaimsUpdate(workers: seq<Worker>, w: nat, me: Worker, file: nat)
    requires w < |workers|
    ensures Held(ClaimList(workers[w := me]), file) + multiset(Claim(workers[w]))[file] ==
            Held(ClaimList(workers), file) + multiset(Claim(me))[file]
  {
    HeldUpdate(ClaimList(workers), w, Claim(me), file);
    assert ClaimList(workers[w := me]) == ClaimList(workers)[w := Claim(me)];
  }

  /** The log of one list of files after another. */
  lemma {:induction false} LogsConcat(files: seq<Lines>, a: seq<nat>, b: seq<nat>)
    ensures UrlsOf(files, a + b) == UrlsOf(files, a) + UrlsOf(files, b)
    ensures ReferersOf(files, a + b) == ReferersOf(files, a) + ReferersOf(files, b)
    decreases |b|
  {
    if b == [] {
      assert a + b == a;
      assert UrlsOf(files, a) + [] == UrlsOf(files, a) && ReferersOf(files, a) + [] == ReferersOf(files, a);
    } else {
      var n := |b| - 1;
      assert (a + b)[..|a + b| - 1] == a + b[..n] && (a + b)[|a + b| - 1] == b[n];
      LogsConcat(files, a, b[..n]);
      Regroup(UrlsOf(files, a), UrlsOf(files, b[..n]), UrlLog(FileAt(files, b[n])));
      Regroup(ReferersOf(files, a), ReferersOf(files, b[..n]), RefererLogOf(FileAt(files, b[n])));
    }
  }

  /** What the parser of lines guarantees of all the files. */
  ghost predicate FilesParsed(files: seq<Lines>) {
    forall i {:trigger files[i]} :: 0 <= i < |files| ==> AllParsed(files[i])
  }

  lemma ProcessFaithful(files: seq<Lines>, s: Stats, seen: seq<nat>, file: nat)
    requires FilesParsed(files) && Faithful(files, s, seen)
    ensures Faithful(files, Process(s, FileAt(files, file)), seen + [file])
  {
    assert AllParsed(FileAt(files, file));
    ProcessShows(s, UrlsOf(files, seen), ReferersOf(files, seen), FileAt(files, file));
    assert (seen + [file])[..|seen|] == seen;
  }

  lemma MergeFaithful(files: seq<Lines>, s: Stats, seen: seq<nat>, global: Stats, merged: seq<nat>)
    requires Faithful(files, s, seen) && Faithful(files, global, merged)
    ensures Faithful(files, Merge(s, global), merged + seen)
  {
    MergeShows(s, UrlsOf(files, seen), ReferersOf(files, seen), global, UrlsOf(files, merged),
      ReferersOf(files, merged));
    LogsConcat(files, merged, seen);
  }

  lemma ClaimTakenAt(next: nat, workers: seq<Worker>, w: nat, me: Worker, file: nat)
    requires w < |workers| && Claim(me) == Claim(workers[w]) + [next]
    ensures Held(ClaimList(workers[w := me]), file) == Held(ClaimList(workers), file) + multiset{next}[file]
    ensures multiset(Indices(next + 1))[file] == multiset(Indices(next))[file] + multiset{next}[file]
  {
    ClaimsUpdate(workers, w, me, file);
    assert multiset(Claim(workers[w]) + [next])[file] == multiset(Claim(workers[w]))[file] + multiset{next}[file];
    assert multiset(Indices(next) + [next])[file] == multiset(Indices(next))[file] + multiset{next}[file];
  }

  lemma ClaimTaken(n: nat, next: nat, merged: seq<nat>, workers: seq<Worker>, w: nat, me: Worker)
    requires ClaimsHold(n, next, merged, workers) && w < |workers| && next < n
    requires Claim(me) == Claim(workers[w]) + [next] && !Past(me)
    ensures ClaimsHold(n, next + 1, merged, workers[w := me])
  {
    forall file: nat {:trigger multiset(Indices(next + 1))[file]}
      ensures multiset(merged)[file] + Held(ClaimList(workers[w := me]), file) == multiset(Indices(next + 1))[file]
    {
      ClaimTakenAt(next, workers, w, me, file);
    }
  }

  lemma ClaimKept(n: nat, next: nat, merged: seq<nat>, workers: seq<Worker>, w: nat, me: Worker)
    requires ClaimsHold(n, next, merged, workers) && w < |workers|
    requires Claim(me) == Claim(workers[w]) && (Past(me) ==> next == n)
    ensures ClaimsHold(n, next, merged, workers[w := me])
  {
    forall file: nat {:trigger multiset(Indices(next))[file]}
      ensures multiset(merged)[file] + Held(ClaimList(workers[w := me]), file) == multiset(Indices(next))[file]
    {
      ClaimsUpdate(workers, w, me, file);
    }
  }

  lemma ClaimMerged(n: nat, next: nat, merged: seq<nat>, workers: seq<Worker>, w: nat, me: Worker)
    requires ClaimsHold(n, next, merged, workers) && w < |workers| && next == n
    requires Claim(me) == []
    ensures ClaimsHold(n, next, merged + Claim(workers[w]), workers[w := me])
  {
    forall file: nat {:trigger multiset(Indices(next))[file]}
      ensures multiset(merged + Claim(workers[w]))[file] + Held(ClaimList(workers[w := me]), file) ==
              multiset(Indices(next))[file]
    {
      ClaimsUpdate(workers, w, me, file);
      assert multiset(merged + Claim(workers[w]))[file] == multiset(merged)[file] + multiset(Claim(workers[w]))[file];
    }
  }

  /** What a step does to the claims: a file more, all of them merged, or nothing. */
  lemma StepShape(files: seq<Lines>, s: State, w: nat) returns (r: State, me: Worker)
    requires AllSized(s) && w < |s.workers| && s.next <= |files|
    requires Past(s.workers[w]) ==> s.next == |files|
    ensures r == Step(files, s, w) && r.workers == s.workers[w := me]
    ensures
      || (s.next < |files| && r.next == s.next + 1 && r.merged == s.merged && !Past(me) &&
          Claim(me) == Claim(s.workers[w]) + [s.next])
      || (r.next == s.next == |files| && r.merged == s.merged + Claim(s.workers[w]) && Claim(me) == [])
      || (r.next == s.next && r.merged == s.merged && Claim(me) == Claim(s.workers[w]) &&
        (Past(me) ==> s.next == |files|))
  {
    r := Step(files, s, w);
    me := r.workers[w];
  }

  /** No step loses a file or gives one out twice. */
  lemma StepKeepsClaims(files: seq<Lines>, s: State, w: nat)
    requires ClaimsHold(|files|, s.next, s.merged, s.workers) && AllSized(s) && w < |s.workers|
    ensures var r := Step(files, s, w); ClaimsHold(|files|, r.next, r.merged, r.workers)
  {
    var n := |files|;
    var r, me := StepShape(files, s, w);
    if s.next < n && r.next == s.next + 1 {
      ClaimTaken(n, s.next, s.merged, s.workers, w, me);
    } else if Claim(me) == Claim(s.workers[w]) && r.merged == s.merged {
      ClaimKept(n, s.next, s.merged, s.workers, w, me);
    } else {
      ClaimMerged(n, s.next, s.merged, s.workers, w, me);
    }
  }

  lemma OneFaithful(files: seq<Lines>, s: State, w: nat, me: Worker)
    requires StatsHold(files, s) && w < |s.workers| && Faithful(files, me.stats, me.seen)
    ensures StatsHold(files, s.(workers := s.workers[w := me]))
  {
  }

  lemma StepKeepsStats(files: seq<Lines>, s: State, w: nat)
    requires StatsHold(files, s) && AllSized(s) && w < |s.workers| && FilesParsed(files)
    ensures StatsHold(files, Step(files, s, w))
  {
    var me, r := s.workers[w], Step(files, s, w);
    if me.phase.Busy? {
      ProcessFaithful(files, me.stats, me.seen, me.phase.file);
      OneFaithful(files, s, w, r.workers[w]);
    } else {
      OneFaithful(files, s, w, me.(phase := r.workers[w].phase));
      if me.phase.Leaving? { MergeFaithful(files, me.stats, me.seen, s.global, s.merged); }
    }
  }

  lemma StepKeepsInv(files: seq<Lines>, s: State, w: nat)
    requires Inv(files, s) && AllSized(s) && w < |s.workers| && FilesParsed(files)
    ensures Inv(files, Step(files, s, w))
  {
    StepKeepsClaims(files, s, w);
    StepKeepsStats(files, s, w);
  }

  /** The invariant holds after every run, under every schedule. */
  lemma {:induction false} RunKeepsInv(files: seq<Lines>, threads: nat, schedule: seq<nat>)
    requires FilesParsed(files)
    ensures AllSized(Start(threads)) && Inv(files, Run(files, Start(threads), schedule))
    decreases schedule
  {
    StartHolds(files, threads);
    if schedule != [] {
      RunKeepsInv(files, threads, schedule[..|schedule| - 1]);
      var before, w := Run(files, Start(threads), schedule[..|schedule| - 1]), schedule[|schedule| - 1];
      if w < |before.workers| { StepKeepsInv(files, before, w); }
    }
  }

  // ---------- the result does not depend on the schedule ----------

  /** Logs of the same files in another order add up to the same. */
  lemma {:induction false} OrderDoesNotMatter(files: seq<Lines>, a: seq<nat>, b: seq<nat>)
    requires multiset(a) == multiset(b)
    ensures SameSums(UrlsOf(files, a), UrlsOf(files, b))
    ensures SameSums(ReferersOf(files, a), ReferersOf(files, b))
    decreases |a|
  {
    if a == [] {
      assert |b| == |multiset(b)| == 0;
    } else {
      var n := |a| - 1;
      var x := a[n];
      assert x in multiset(b);
      var i :| 0 <= i < |b| && b[i] == x;
      var rest := b[..i] + b[i + 1..];
      assert b == b[..i] + [x] + b[i + 1..];
      assert a == a[..n] + [x];
      assert multiset(a[..n]) == multiset(a) - multiset{x};
      assert multiset(rest) == multiset(b) - multiset{x};
      OrderDoesNotMatter(files, a[..n], rest);
      MoveLast(files, b[..i], x, b[i + 1..]);
      LogsConcat(files, a[..n], [x]);
      LogsConcat(files, rest, [x]);
      SameAppend(UrlsOf(files, a[..n]), UrlsOf(files, rest), UrlsOf(files, [x]));
      SameAppend(ReferersOf(files, a[..n]), ReferersOf(files, rest), ReferersOf(files, [x]));
      SameTrans(UrlsOf(files, a), UrlsOf(files, rest + [x]), UrlsOf(files, b));
      SameTrans(ReferersOf(files, a), ReferersOf(files, rest + [x]), ReferersOf(files, b));
    }
  }

  lemma SameAppend(a: Chain, b: Chain, c: Chain)
    requires SameSums(a, b)
    ensures SameSums(a + c, b + c)
  {
    forall key ensures Sum(a + c, key) == Sum(b + c, key) && (Has(a + c, key) <==> Has(b + c, key)) {
      SumConcat(a, c, key);
      SumConcat(b, c, key);
      assert Sum(a, key) == Sum(b, key);
      assert Has(a, key) <==> Has(b, key);
    }
    SumConcat(a, c, []);
    SumConcat(b, c, []);
  }

  lemma SameTrans(a: Chain, b: Chain, c: Chain)
    requires SameSums(a, b) && SameSums(b, c)
    ensures SameSums(a, c)
  {
    forall key ensures Sum(a, key) == Sum(c, key) && (Has(a, key) <==> Has(c, key)) {
      assert Sum(a, key) == Sum(b, key);
      assert Has(a, key) <==> Has(b, key);
    }
  }

  lemma SwapSame(a: Chain, b: Chain)
    ensures SameSums(a + b, b + a)
  {
    forall key ensures Sum(a + b, key) == Sum(b + a, key) && (Has(a + b, key) <==> Has(b + a, key)) {
      SumConcat(a, b, key);
      SumConcat(b, a, key);
    }
    SumConcat(a, b, []);
    SumConcat(b, a, []);
  }

  /** One file may be moved to the end of the order. */
  lemma MoveLast(files: seq<Lines>, p: seq<nat>, x: nat, q: seq<nat>)
    ensures SameSums(UrlsOf(files, p + q + [x]), UrlsOf(files, p + [x] + q))
    ensures SameSums(ReferersOf(files, p + q + [x]), ReferersOf(files, p + [x] + q))
  {
    assert p + q + [x] == p + (q + [x]) && p + [x] + q == p + ([x] + q);
    LogsConcat(files, p, q + [x]);
    LogsConcat(files, q, [x]);
    LogsConcat(files, p, [x] + q);
    LogsConcat(files, [x], q);
    SwapSame(UrlsOf(files, q), UrlsOf(files, [x]));
    SwapSame(ReferersOf(files, q), ReferersOf(files, [x]));
    SameConcat(UrlsOf(files, p), UrlsOf(files, q + [x]), UrlsOf(files, [x] + q));
    SameConcat(ReferersOf(files, p), ReferersOf(files, q + [x]), ReferersOf(files, [x] + q));
  }

  ghost predicate AllFinished(s: State) {
    forall w {:trigger s.workers[w]} :: 0 <= w < |s.workers| ==> s.workers[w].phase.Finished?
  }

  /** The outcome is that of processing all files one after the other. */
  ghost predicate Sequential(files: seq<Lines>, s: State) {
    Faithful(files, s.global, Indices(|files|))
  }

  lemma FinishedMerged(files: seq<Lines>, s: State)
    requires ClaimsHold(|files|, s.next, s.merged, s.workers) && AllFinished(s) && |s.workers| > 0
    ensures multiset(s.merged) == multiset(Indices(|files|))
  {
    assert s.workers[0].phase.Finished?;
    forall file: nat ensures multiset(s.merged)[file] == multiset(Indices(|files|))[file] {
      NoClaims(ClaimList(s.workers), file);
    }
  }

  lemma AnyOrder(files: seq<Lines>, s: Stats, a: seq<nat>, b: seq<nat>)
    requires Faithful(files, s, a) && multiset(a) == multiset(b)
    ensures Faithful(files, s, b)
  {
    OrderDoesNotMatter(files, a, b);
    ReflectsSame(s.url, UrlsOf(files, a), UrlsOf(files, b));
    ReflectsSame(s.referer, ReferersOf(files, a), ReferersOf(files, b));
  }

  /**
    Once all threads have finished, whatever the schedule was: each file was processed and merged exactly once, and the
    global tables hold for every key the sum over all files taken one after the other, and nothing else.
   */
  lemma EveryScheduleAgrees(files: seq<Lines>, threads: nat, schedule: seq<nat>)
    requires FilesParsed(files) && threads > 0 && AllSized(Start(threads))
    requires AllFinished(Run(files, Start(threads), schedule))
    ensures multiset(Run(files, Start(threads), schedule).merged) == multiset(Indices(|files|))
    ensures Sequential(files, Run(files, Start(threads), schedule))
  {
    RunKeepsInv(files, threads, schedule);
    var end := Run(files, Start(threads), schedule);
    FinishedMerged(files, end);
    AnyOrder(files, end.global, end.merged, Indices(|files|));
  }

  // ---------- the outcome, counted over all files ----------

  function FileBytes(files: seq<Lines>, n: nat, url: seq<int>): int {
    if n == 0 then 0 else FileBytes(files, n - 1, url) + UrlBytes(FileAt(files, n - 1), url)
  }

  function FileVisits(files: seq<Lines>, n: nat, referer: seq<int>): nat {
    if n == 0 then 0 else FileVisits(files, n - 1, referer) + RefererVisits(FileAt(files, n - 1), referer)
  }

  function AllBytes(files: seq<Lines>, n: nat): int {
    if n == 0 then 0 else AllBytes(files, n - 1) + LineBytes(FileAt(files, n - 1))
  }

  /** Line `k` of file `i` requests this URL. */
  predicate Requests(files: seq<Lines>, i: int, k: int, url: seq<int>) {
    0 <= i < |files| && Names(files[i], k, url)
  }

  /** The logs of the first `n` files, one after the other. */
  function UrlsUpTo(files: seq<Lines>, n: nat): Chain {
    if n == 0 then [] else UrlsUpTo(files, n - 1) + UrlLog(FileAt(files, n - 1))
  }

  function ReferersUpTo(files: seq<Lines>, n: nat): Chain {
    if n == 0 then [] else ReferersUpTo(files, n - 1) + RefererLogOf(FileAt(files, n - 1))
  }

  lemma OneMoreIndex(n: nat) returns (before: seq<nat>, order: seq<nat>)
    requires n > 0
    ensures before == Indices(n - 1) && order == Indices(n) && order != []
    ensures order[..|order| - 1] == before && order[|order| - 1] == n - 1
  {
    before, order := Indices(n - 1), Indices(n);
  }

  lemma UrlStep(files: seq<Lines>, n: nat)
    requires n > 0 && UrlsOf(files, Indices(n - 1)) == UrlsUpTo(files, n - 1)
    ensures UrlsOf(files, Indices(n)) == UrlsUpTo(files, n)
  {
    var before, order := OneMoreIndex(n);
  }

  lemma RefererStep(files: seq<Lines>, n: nat)
    requires n > 0 && ReferersOf(files, Indices(n - 1)) == ReferersUpTo(files, n - 1)
    ensures ReferersOf(files, Indices(n)) == ReferersUpTo(files, n)
  {
    var before, order := OneMoreIndex(n);
  }

  lemma {:induction false} LogsUpTo(files: seq<Lines>, n: nat)
    ensures UrlsOf(files, Indices(n)) == UrlsUpTo(files, n)
    ensures ReferersOf(files, Indices(n)) == ReferersUpTo(files, n)
    decreases n
  {
    if n > 0 {
      LogsUpTo(files, n - 1);
      UrlStep(files, n);
      RefererStep(files, n);
    }
  }

  /** The logs of the first `n` files add up to what their lines give. */
  ghost predicate BytesUpTo(files: seq<Lines>, n: nat, key: seq<int>) {
    var urls := UrlsUpTo(files, n);
    Sum(urls, key) == FileBytes(files, n, key) && Total(urls) == AllBytes(files, n)
  }

  ghost predicate VisitsUpTo(files: seq<Lines>, n: nat, key: seq<int>) {
    Sum(ReferersUpTo(files, n), key) == FileVisits(files, n, key)
  }

  lemma NoSum(files: seq<Lines>, n: nat, key: seq<int>)
    requires n == 0
    ensures BytesUpTo(files, n, key) && VisitsUpTo(files, n, key)
  {
  }

  lemma BytesStep(files: seq<Lines>, n: nat, key: seq<int>)
    requires n > 0 && BytesUpTo(files, n - 1, key)
    ensures BytesUpTo(files, n, key)
  {
    var urls, url := UrlsUpTo(files, n - 1), UrlLog(FileAt(files, n - 1));
    LogsSum(FileAt(files, n - 1), key);
    SumConcat(urls, url, key);
  }

  lemma VisitsStep(files: seq<Lines>, n: nat, key: seq<int>)
    requires n > 0 && VisitsUpTo(files, n - 1, key)
    ensures VisitsUpTo(files, n, key)
  {
    var referers, referer := ReferersUpTo(files, n - 1), RefererLogOf(FileAt(files, n - 1));
    LogsSum(FileAt(files, n - 1), key);
    SumConcat(referers, referer, key);
  }

  lemma {:induction false} BytesSum(files: seq<Lines>, n: nat, key: seq<int>)
    ensures BytesUpTo(files, n, key)
    decreases n
  {
    if n == 0 {
      NoSum(files, n, key);
    } else {
      BytesSum(files, n - 1, key);
      BytesStep(files, n, key);
    }
  }

  lemma {:induction false} VisitsSum(files: seq<Lines>, n: nat, key: seq<int>)
    ensures VisitsUpTo(files, n, key)
    decreases n
  {
    if n == 0 {
      NoSum(files, n, key);
    } else {
      VisitsSum(files, n - 1, key);
      VisitsStep(files, n, key);
    }
  }

  /** The URLs of the first `n` files are those that one of their lines requests. */
  ghost predicate HasUpTo(files: seq<Lines>, n: nat, key: seq<int>) {
    Has(UrlsUpTo(files, n), key) <==> exists i, k :: i < n && Requests(files, i, k, key)
  }

  lemma HasNone(files: seq<Lines>, n: nat, key: seq<int>)
    requires n == 0
    ensures HasUpTo(files, n, key)
  {
  }

  lemma HasStep(files: seq<Lines>, n: nat, key: seq<int>)
    requires 0 < n <= |files| && HasUpTo(files, n - 1, key)
    ensures HasUpTo(files, n, key)
  {
    var urls, url := UrlsUpTo(files, n - 1), UrlLog(FileAt(files, n - 1));
    LogsSum(files[n - 1], key);
    SumConcat(urls, url, key);
    RequestsAmong(files, n, key);
  }

  lemma {:induction false} FilesHave(files: seq<Lines>, n: nat, key: seq<int>)
    requires n <= |files|
    ensures HasUpTo(files, n, key)
    decreases n
  {
    if n == 0 {
      HasNone(files, n, key);
    } else {
      FilesHave(files, n - 1, key);
      HasStep(files, n, key);
    }
  }

  lemma RequestsAmong(files: seq<Lines>, n: nat, url: seq<int>)
    requires 0 < n <= |files|
    ensures (exists i, k :: i < n && Requests(files, i, k, url)) <==>
            (exists i, k :: i < n - 1 && Requests(files, i, k, url)) || Requested(files[n - 1], url)
  {
    if Requested(files[n - 1], url) {
      var k :| Names(files[n - 1], k, url);
      assert Requests(files, n - 1, k, url);
    }
  }

  /**
    What the outcome says of a key: its amount is the sum of its entries in the files, and the total is that of the
    table.
   */
  lemma SequentialMeans(files: seq<Lines>, s: State, key: seq<int>)
    requires Sequential(files, s)
    ensures Amount(s.global.url, key) == FileBytes(files, |files|, key)
    ensures Amount(s.global.referer, key) == FileVisits(files, |files|, key)
    ensures Contains(s.global.url, key) <==> exists i, k :: Requests(files, i, k, key)
    ensures s.global.bytes == Grand(s.global.url) == AllBytes(files, |files|)
  {
    LogsUpTo(files, |files|);
    BytesSum(files, |files|, key);
    VisitsSum(files, |files|, key);
    FilesHave(files, |files|, key);
    assert Amount(s.global.url, key) == Sum(UrlsUpTo(files, |files|), key);
  }
}
