/**
 The baseline of scripts/check-spec-prose.py: a table of figures, one entry for each text, that
 a check compares the texts with and that `--update` only lowers.
 Reading, writing and printing are left out; a run takes the figures measured and the table read.
 */
module Ratchet {
  import opened Wrappers

  /** A text's mean words per sentence, its sentences over the limit and its history tags. */
  datatype Figures = Figures(mean: real, over: nat, tags: nat)

  type Table = map<string, Figures>

  datatype Measured = Measured(rel: string, now: Figures)

  datatype Failure = NoEntry(rel: string) | Worse(rel: string) | Gone(rel: string)

  predicate Rises(now: Figures, entry: Figures) {
    now.mean > entry.mean || now.over > entry.over || now.tags > entry.tags
  }

  function MinFigures(a: Figures, b: Figures): Figures {
    Figures(if a.mean < b.mean then a.mean else b.mean,
            if a.over < b.over then a.over else b.over,
            if a.tags < b.tags then a.tags else b.tags)
  }

  /** No figure is above the entry's. */
  predicate AtMost(now: Figures, entry: Figures) {
    now.mean <= entry.mean && now.over <= entry.over && now.tags <= entry.tags
  }

  /** A text rises exactly when some figure is above the entry's, and its minimum with the entry is then another. */
  lemma RisesIff(now: Figures, entry: Figures)
    ensures Rises(now, entry) <==> !AtMost(now, entry)
    ensures Rises(now, entry) <==> MinFigures(now, entry) != now
  {
  }

  /** Each text is measured once. */
  ghost predicate Distinct(measured: seq<Measured>) {
    forall a, b :: 0 <= a < b < |measured| ==> measured[a].rel != measured[b].rel
  }

  function TableOf(measured: seq<Measured>): Table {
    if measured == [] then map[]
    else TableOf(measured[..|measured| - 1])[measured[|measured| - 1].rel := measured[|measured| - 1].now]
  }

  // ----- One run

  /** The table `--update` writes. */
  function Lowered(baseline: Table, texts: Table): Table {
    map rel | rel in texts :: if rel in baseline then MinFigures(texts[rel], baseline[rel]) else texts[rel]
  }

  ghost predicate FailsAs(baseline: Table, texts: Table, update: bool, f: Failure) {
    match f
    case NoEntry(rel) => !update && rel in texts && rel !in baseline
    case Worse(rel) => rel in texts && rel in baseline && Rises(texts[rel], baseline[rel])
    case Gone(rel) => !update && rel in baseline && rel !in texts
  }

  ghost predicate Fails(baseline: Table, texts: Table, update: bool) {
    exists f :: FailsAs(baseline, texts, update, f)
  }

  /** The loop over the texts: what is recorded for each, and which fail. */
  method Compare(table: Table, measured: seq<Measured>, update: bool)
    returns (lowered: Table, failures: set<Failure>)
    requires Distinct(measured)
    ensures lowered == Lowered(table, TableOf(measured))
    ensures forall f :: f in failures <==> !f.Gone? && FailsAs(table, TableOf(measured), update, f)
  {
    failures, lowered := {}, map[];
    for k := 0 to |measured|
      invariant lowered == Lowered(table, TableOf(measured[..k]))
      invariant forall f :: f in failures <==> !f.Gone? && FailsAs(table, TableOf(measured[..k]), update, f)
    {
      var rel, now := measured[k].rel, measured[k].now;
      TableOneMore(measured, k);
      OneMoreText(table, TableOf(measured[..k]), rel, now, update);
      if rel !in table {
        if !update { failures := failures + {NoEntry(rel)}; }
        lowered := lowered[rel := now];
      } else {
        if Rises(now, table[rel]) { failures := failures + {Worse(rel)}; }
        lowered := lowered[rel := MinFigures(now, table[rel])];
      }
    }
    assert measured[..|measured|] == measured;
  }

  /** What a run exits with, and the table it writes, if it writes one. */
  method Run(baseline: Option<Table>, measured: seq<Measured>, update: bool)
    returns (exit: nat, written: Option<Table>, failures: set<Failure>)
    requires Distinct(measured)
    ensures exit <= 2 && (baseline == None && !update <==> exit == 2)
    ensures exit == 2 ==> written == None && failures == {}
    ensures exit != 2 ==>
      var table := if baseline == None then map[] else baseline.value;
      && (forall f :: f in failures <==> FailsAs(table, TableOf(measured), update, f))
      && (exit == 0 <==> !Fails(table, TableOf(measured), update))
      && written == (if update then Some(Lowered(table, TableOf(measured))) else None)
  {
    if baseline == None && !update { return 2, None, {}; }
    var table := if baseline == None then map[] else baseline.value;
    var lowered;
    lowered, failures := Compare(table, measured, update);
    if !update {
      failures := failures + (set rel | rel in table && rel !in TableOf(measured) :: Gone(rel));
    }
    written := if update then Some(lowered) else None;
    exit := if failures != {} then 1 else 0;
  }

  lemma OneMoreText(table: Table, texts: Table, rel: string, now: Figures, update: bool)
    requires rel !in texts
    ensures Lowered(table, texts[rel := now]) ==
      Lowered(table, texts)[rel := if rel in table then MinFigures(now, table[rel]) else now]
    ensures forall f: Failure :: !f.Gone? ==> (FailsAs(table, texts[rel := now], update, f) <==>
      FailsAs(table, texts, update, f) ||
      (f == NoEntry(rel) && !update && rel !in table) || (f == Worse(rel) && rel in table && Rises(now, table[rel])))
  {
  }

  lemma TableOneMore(measured: seq<Measured>, k: nat)
    requires Distinct(measured) && k < |measured|
    ensures var before := TableOf(measured[..k]); var m := measured[k];
      m.rel !in before && TableOf(measured[..k + 1]) == before[m.rel := m.now]
  {
    assert measured[..k + 1][..k] == measured[..k];
    NotYetMeasured(measured, k, k);
  }

  lemma {:induction false} NotYetMeasured(measured: seq<Measured>, k: nat, j: nat)
    requires Distinct(measured) && j <= k < |measured|
    ensures measured[k].rel !in TableOf(measured[..j])
  {
    if j > 0 {
      NotYetMeasured(measured, k, j - 1);
      assert measured[..j][..j - 1] == measured[..j - 1];
    }
  }

  /** The table of what is measured holds each text's figures, and nothing else. */
  lemma {:induction false} TableHolds(measured: seq<Measured>, rel: string)
    requires Distinct(measured)
    ensures rel in TableOf(measured) <==> exists k :: 0 <= k < |measured| && measured[k].rel == rel
    ensures forall k :: 0 <= k < |measured| ==>
      measured[k].rel in TableOf(measured) && TableOf(measured)[measured[k].rel] == measured[k].now
    decreases |measured|
  {
    if measured != [] {
      TableHolds(measured[..|measured| - 1], rel);
      NotYetMeasured(measured, |measured| - 1, |measured| - 1);
    }
  }

  /** A check passes exactly when the table has the same texts, and no text is above its entry in anything. */
  lemma CheckPassesIff(baseline: Table, texts: Table)
    ensures !Fails(baseline, texts, false) <==>
      texts.Keys == baseline.Keys && forall rel :: rel in texts && rel in baseline ==> AtMost(texts[rel], baseline[rel])
  {
    forall rel
      ensures FailsAs(baseline, texts, false, NoEntry(rel)) <==> rel in texts && rel !in baseline
      ensures FailsAs(baseline, texts, false, Gone(rel)) <==> rel !in texts && rel in baseline
      ensures FailsAs(baseline, texts, false, Worse(rel)) <==>
        rel in texts && rel in baseline && !AtMost(texts[rel], baseline[rel])
    {
    }
  }

  /** An update passes exactly when no text that has an entry is above it in anything. */
  lemma UpdatePassesIff(baseline: Table, texts: Table)
    ensures !Fails(baseline, texts, true) <==>
      forall rel :: rel in texts && rel in baseline ==> AtMost(texts[rel], baseline[rel])
  {
    forall rel
      ensures FailsAs(baseline, texts, true, Worse(rel)) <==>
        rel in texts && rel in baseline && !AtMost(texts[rel], baseline[rel])
    {
    }
  }

  /** Updating again on the same texts changes nothing. */
  lemma UpdateIsIdempotent(baseline: Table, texts: Table)
    ensures Lowered(Lowered(baseline, texts), texts) == Lowered(baseline, texts)
    ensures Fails(Lowered(baseline, texts), texts, true) <==> Fails(baseline, texts, true)
  {
    UpdateFailsAsCheck(baseline, texts);
    UpdateFailsAsCheck(Lowered(baseline, texts), texts);
  }

  /** `--update` writes its table in any case, and succeeds exactly when a check right after it does. */
  lemma UpdateFailsAsCheck(baseline: Table, texts: Table)
    ensures Fails(baseline, texts, true) <==> Fails(Lowered(baseline, texts), texts, false)
  {
    var lowered := Lowered(baseline, texts);
    forall rel
      ensures FailsAs(baseline, texts, true, Worse(rel)) <==> FailsAs(lowered, texts, false, Worse(rel))
      ensures !FailsAs(lowered, texts, false, NoEntry(rel)) && !FailsAs(lowered, texts, false, Gone(rel))
    {
    }
    if f :| FailsAs(baseline, texts, true, f) {
      assert FailsAs(lowered, texts, false, f);
    }
    if f :| FailsAs(lowered, texts, false, f) {
      assert FailsAs(baseline, texts, true, f);
    }
  }

  // ----- Any number of runs

  /** A run on the texts as they were then; only an update writes the table. */
  datatype Event = Event(texts: Table, update: bool)

  /** The table after the first `n` runs, from the one there at first. */
  function TableAfter(baseline: Option<Table>, events: seq<Event>, n: nat): Option<Table>
    requires n <= |events|
  {
    if n == 0 then baseline
    else
      var before := TableAfter(baseline, events, n - 1);
      var e := events[n - 1];
      if e.update then Some(Lowered(if before == None then map[] else before.value, e.texts)) else before
  }

  /** One run to come: the texts as they are measured then. */
  datatype Job = Job(measured: seq<Measured>, update: bool)

  function EventsOf(jobs: seq<Job>): (r: seq<Event>)
    ensures |r| == |jobs|
    ensures forall k :: 0 <= k < |jobs| ==> r[k] == Event(TableOf(jobs[k].measured), jobs[k].update)
  {
    seq(|jobs|, k requires 0 <= k < |jobs| => Event(TableOf(jobs[k].measured), jobs[k].update))
  }

  /** Any number of runs, each reading the table the one before it left. */
  method RunAll(baseline: Option<Table>, jobs: seq<Job>) returns (table: Option<Table>)
    requires forall k :: 0 <= k < |jobs| ==> Distinct(jobs[k].measured)
    ensures table == TableAfter(baseline, EventsOf(jobs), |jobs|)
  {
    table := baseline;
    for n := 0 to |jobs|
      invariant table == TableAfter(baseline, EventsOf(jobs), n)
    {
      var exit, written, failures := Run(table, jobs[n].measured, jobs[n].update);
      if written.Some? { table := written; }
    }
  }

  /** Run `k` is an update, and no update from it on, up to run `n`, was without the text. */
  ghost predicate Since(events: seq<Event>, rel: string, k: int, n: nat)
    requires n <= |events|
  {
    0 <= k < n && events[k].update && forall j :: k <= j < n && events[j].update ==> rel in events[j].texts
  }

  /** `v` is the componentwise minimum of the text's figures since it last entered the table. */
  ghost predicate IsMinimum(events: seq<Event>, rel: string, n: nat, v: Figures)
    requires n <= |events|
  {
    && (forall k :: Since(events, rel, k, n) ==> AtMost(v, events[k].texts[rel]))
    && (exists k :: Since(events, rel, k, n) && v.mean == events[k].texts[rel].mean)
    && (exists k :: Since(events, rel, k, n) && v.over == events[k].texts[rel].over)
    && (exists k :: Since(events, rel, k, n) && v.tags == events[k].texts[rel].tags)
  }

  ghost predicate InTable(baseline: Option<Table>, events: seq<Event>, rel: string, n: nat)
    requires n <= |events|
  {
    TableAfter(baseline, events, n).Some? && rel in TableAfter(baseline, events, n).value
  }

  lemma SinceOneMore(events: seq<Event>, rel: string, n: nat)
    requires 0 < n <= |events|
    ensures forall k :: Since(events, rel, k, n) <==>
      (k < n - 1 && Since(events, rel, k, n - 1) && (events[n - 1].update ==> rel in events[n - 1].texts)) ||
      (k == n - 1 && events[k].update && rel in events[k].texts)
  {
  }

  /** A minimum stays one with the figures of one more update. */
  lemma MinimumOneMore(events: seq<Event>, rel: string, n: nat, v: Figures)
    requires 0 < n <= |events| && events[n - 1].update && rel in events[n - 1].texts
    requires IsMinimum(events, rel, n - 1, v)
    ensures IsMinimum(events, rel, n, MinFigures(events[n - 1].texts[rel], v))
  {
    SinceOneMore(events, rel, n);
    assert Since(events, rel, n - 1, n);
    var a :| Since(events, rel, a, n - 1) && v.mean == events[a].texts[rel].mean;
    var b :| Since(events, rel, b, n - 1) && v.over == events[b].texts[rel].over;
    var c :| Since(events, rel, c, n - 1) && v.tags == events[c].texts[rel].tags;
    assert Since(events, rel, a, n) && Since(events, rel, b, n) && Since(events, rel, c, n);
  }

  /** A check changes no entry. */
  lemma MinimumAfterCheck(events: seq<Event>, rel: string, n: nat)
    requires 0 < n <= |events| && !events[n - 1].update
    ensures forall k :: Since(events, rel, k, n) <==> Since(events, rel, k, n - 1)
    ensures forall v :: IsMinimum(events, rel, n - 1, v) ==> IsMinimum(events, rel, n, v)
  {
    SinceOneMore(events, rel, n);
    forall v | IsMinimum(events, rel, n - 1, v)
      ensures IsMinimum(events, rel, n, v)
    {
      var a :| Since(events, rel, a, n - 1) && v.mean == events[a].texts[rel].mean;
      var b :| Since(events, rel, b, n - 1) && v.over == events[b].texts[rel].over;
      var c :| Since(events, rel, c, n - 1) && v.tags == events[c].texts[rel].tags;
      assert Since(events, rel, a, n) && Since(events, rel, b, n) && Since(events, rel, c, n);
    }
  }

  /** What the runs after the table was empty leave. */
  lemma {:induction false} EntryFromNothing(events: seq<Event>, rel: string, n: nat)
    requires n <= |events|
    ensures InTable(None, events, rel, n) <==> exists k :: Since(events, rel, k, n)
    ensures InTable(None, events, rel, n) ==> IsMinimum(events, rel, n, TableAfter(None, events, n).value[rel])
  {
    if n > 0 {
      EntryFromNothing(events, rel, n - 1);
      var e := events[n - 1];
      if !e.update {
        MinimumAfterCheck(events, rel, n);
        var m := n - 1;
        if k :| Since(events, rel, k, m) {
          assert Since(events, rel, k, n);
        }
      } else if rel in e.texts {
        assert Since(events, rel, n - 1, n);
        if InTable(None, events, rel, n - 1) {
          MinimumOneMore(events, rel, n, TableAfter(None, events, n - 1).value[rel]);
        } else {
          SinceOneMore(events, rel, n);
        }
      } else {
        assert forall k :: !Since(events, rel, k, n);
      }
    }
  }

  /** A table there at first is as if an update on its own figures had written it. */
  function Recorded(baseline: Option<Table>): seq<Event> {
    if baseline.Some? then [Event(baseline.value, true)] else []
  }

  lemma {:induction false} BaselineIsAnUpdate(baseline: Option<Table>, events: seq<Event>, n: nat)
    requires n <= |events|
    ensures var before := Recorded(baseline);
      TableAfter(baseline, events, n) == TableAfter(None, before + events, |before| + n)
  {
    var before := Recorded(baseline);
    if n > 0 {
      BaselineIsAnUpdate(baseline, events, n - 1);
    } else if baseline.Some? {
      assert Lowered(map[], baseline.value) == baseline.value;
      assert (before + events)[0] == before[0];
      assert TableAfter(None, before + events, 0) == None;
    }
  }

  /**
   After any runs, from any table, a text has an entry exactly when it was there at the last
   update, and its entry is the minimum of its figures over the updates since it last entered
   the table, the table there at first counting as one.
   */
  lemma EntryIsRunningMinimum(baseline: Option<Table>, events: seq<Event>, rel: string, n: nat)
    requires n <= |events|
    ensures var all, m := Recorded(baseline) + events, |Recorded(baseline)| + n;
      && (InTable(baseline, events, rel, n) <==> exists k :: Since(all, rel, k, m))
      && (InTable(baseline, events, rel, n) ==> IsMinimum(all, rel, m, TableAfter(baseline, events, n).value[rel]))
  {
    BaselineIsAnUpdate(baseline, events, n);
    EntryFromNothing(Recorded(baseline) + events, rel, |Recorded(baseline)| + n);
  }
}
