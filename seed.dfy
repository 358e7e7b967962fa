/**
 * The seed script run against an in-memory store: six tables held as
 * sequences and one id counter. `Seed` issues the script's writes in its
 * order: upsert the demo user, find or create its Computer Vision subject,
 * delete the subject's topics, diffs and runs, then recreate ten topics and
 * one completed run per fixture year with a diff per change and a canon item
 * per paper (web/prisma/seed.ts).
 */
module Seed {
  import opened Wrappers
  import opened YearTable
  import opened SeedFixtures

  type Id = nat

  const DemoEmail := "demo@coursekeeper.ai"
  const DemoName := "Demo User"
  const SubjectTitle := "Computer Vision"
  const Discipline := "CS"
  const BaselineYear := 2008
  const SubjectDescription := "Stanford CS231N - Computer Vision Course"
  const CompletedStatus := "COMPLETED"
  /** The fixed confidence of a seeded diff (a float in the store). */
  const DiffConfidence: real := 0.95
  const DiffImportance: nat := 8

  datatype User = User(id: Id, email: string, name: string)

  datatype Subject = Subject(id: Id, userId: Id, title: string, discipline: string, baselineYear: int, description: string)

  datatype BaselineTopic = BaselineTopic(subjectId: Id, name: string, kind: string, category: string, importance: nat, summary: string)

  datatype YearRun = YearRun(id: Id, subjectId: Id, year: int, status: string)

  datatype YearDiff = YearDiff(
    runId: Id,
    changeType: ChangeType,
    fromTitle: Option<string>,
    toTitle: Option<string>,
    rationale: string,
    confidence: real,
    evidence: seq<string>,
    importance: nat)

  datatype CanonItem = CanonItem(
    discipline: string,
    kind: string,
    title: string,
    url: string,
    venue: string,
    year: int,
    summary: string,
    authors: string,
    paperType: string)

  // ---------------------------------------------------------------------------
  // Filtering a table: what `deleteMany` keeps and what a `where` selects
  // ---------------------------------------------------------------------------

  function Filter<T>(s: seq<T>, keep: T -> bool): (r: seq<T>)
    ensures |r| <= |s|
  {
    if s == [] then [] else (if keep(s[0]) then [s[0]] else []) + Filter(s[1..], keep)
  }

  /** A filter keeps exactly the rows that satisfy its condition. */
  lemma {:induction false} FilterMembers<T>(s: seq<T>, keep: T -> bool)
    ensures forall x :: x in Filter(s, keep) <==> x in s && keep(x)
  {
    if s != [] {
      FilterMembers(s[1..], keep);
      assert s == [s[0]] + s[1..];
    }
  }

  /** Filtering distributes over concatenation. */
  lemma {:induction false} FilterAppend<T>(a: seq<T>, b: seq<T>, keep: T -> bool)
    ensures Filter(a + b, keep) == Filter(a, keep) + Filter(b, keep)
  {
    if a == [] {
      assert a + b == b;
    } else {
      var head := if keep(a[0]) then [a[0]] else [];
      assert (a + b)[0] == a[0];
      assert (a + b)[1..] == a[1..] + b;
      FilterAppend(a[1..], b, keep);
      assert Filter(a + b, keep) == head + (Filter(a[1..], keep) + Filter(b, keep));
    }
  }

  /** A filter that every row passes keeps the whole table; one that none passes keeps nothing. */
  lemma {:induction false} FilterAllOrNone<T>(s: seq<T>, keep: T -> bool)
    ensures (forall i :: 0 <= i < |s| ==> keep(s[i])) ==> Filter(s, keep) == s
    ensures (forall i :: 0 <= i < |s| ==> !keep(s[i])) ==> Filter(s, keep) == []
  {
    if s != [] {
      FilterAllOrNone(s[1..], keep);
      assert forall i :: 1 <= i < |s| ==> s[1..][i - 1] == s[i];
      assert s == [s[0]] + s[1..];
    }
  }

  function TopicOf(sid: Id): BaselineTopic -> bool {
    (t: BaselineTopic) => t.subjectId == sid
  }

  function TopicNotOf(sid: Id): BaselineTopic -> bool {
    (t: BaselineTopic) => t.subjectId != sid
  }

  function RunOf(sid: Id): YearRun -> bool {
    (r: YearRun) => r.subjectId == sid
  }

  function RunNotOf(sid: Id): YearRun -> bool {
    (r: YearRun) => r.subjectId != sid
  }

  function DiffOfRun(rid: Id): YearDiff -> bool {
    (d: YearDiff) => d.runId == rid
  }

  function DiffNotIn(doomed: set<Id>): YearDiff -> bool {
    (d: YearDiff) => d.runId !in doomed
  }

  /** The ids of the runs in a table. */
  function RunIds(runs: seq<YearRun>): set<Id> {
    set r | r in runs :: r.id
  }

  /** The ids of a subject's runs: the runs `yearRun: { subjectId }` reaches. */
  function RunIdsOf(runs: seq<YearRun>, sid: Id): set<Id> {
    set r | r in runs && r.subjectId == sid :: r.id
  }

  // ---------------------------------------------------------------------------
  // Lookups
  // ---------------------------------------------------------------------------

  /** The user with this email, if any; emails are unique in the store. */
  function FindUser(users: seq<User>, email: string): (r: Option<User>)
    ensures r.Some? ==> r.value in users && r.value.email == email
    ensures r.None? ==> forall u :: u in users ==> u.email != email
  {
    if users == [] then None
    else if users[0].email == email then Some(users[0])
    else FindUser(users[1..], email)
  }

  /** `subject.findFirst({ where: { userId, title } })`: the first such subject, if any. */
  function FindSubject(subjects: seq<Subject>, userId: Id, title: string): (r: Option<Subject>)
    ensures r.Some? ==> r.value in subjects && r.value.userId == userId && r.value.title == title
    ensures r.None? ==> forall s :: s in subjects ==> !(s.userId == userId && s.title == title)
  {
    if subjects == [] then None
    else if subjects[0].userId == userId && subjects[0].title == title then Some(subjects[0])
    else FindSubject(subjects[1..], userId, title)
  }

  /** A lookup only looks at the rows before the ones appended behind it, once it has found one. */
  lemma {:induction false} FindSubjectAppend(subjects: seq<Subject>, extra: seq<Subject>, userId: Id, title: string)
    requires FindSubject(subjects, userId, title).Some?
    ensures FindSubject(subjects + extra, userId, title) == FindSubject(subjects, userId, title)
  {
    if subjects[0].userId != userId || subjects[0].title != title {
      assert (subjects + extra)[1..] == subjects[1..] + extra;
      FindSubjectAppend(subjects[1..], extra, userId, title);
    }
  }

  /** With no earlier match, a lookup finds the row appended behind. */
  lemma {:induction false} FindSubjectAfterMiss(subjects: seq<Subject>, s: Subject)
    requires FindSubject(subjects, s.userId, s.title).None?
    ensures FindSubject(subjects + [s], s.userId, s.title) == Some(s)
  {
    if subjects != [] {
      assert (subjects + [s])[1..] == subjects[1..] + [s];
      FindSubjectAfterMiss(subjects[1..], s);
    }
  }

  /** With no earlier match, a user lookup finds the row appended behind. */
  lemma {:induction false} FindUserAfterMiss(users: seq<User>, u: User)
    requires FindUser(users, u.email).None?
    ensures FindUser(users + [u], u.email) == Some(u)
  {
    if users != [] {
      assert (users + [u])[1..] == users[1..] + [u];
      FindUserAfterMiss(users[1..], u);
    }
  }

  /** Every user, subject and run id is below `n`, the next id to hand out. */
  predicate IdsBelow(users: seq<User>, subjects: seq<Subject>, runs: seq<YearRun>, n: Id) {
    && (forall u :: u in users ==> u.id < n)
    && (forall s :: s in subjects ==> s.id < n)
    && (forall r :: r in runs ==> r.id < n)
  }

  /** No two users share an email: the `email` column is unique. */
  predicate UniqueEmails(users: seq<User>) {
    forall i, j :: 0 <= i < j < |users| ==> users[i].email != users[j].email
  }

  // ---------------------------------------------------------------------------
  // The records the script creates
  // ---------------------------------------------------------------------------

  /** The fixed parts of a topic's generated summary. */
  const TopicSummaryHead := "Core "
  const TopicSummaryTail := " technique from classical computer vision"

  /** The topic row for one entry of `baselineTopics`. */
  function TopicRecord(sid: Id, t: TopicFixture): BaselineTopic {
    BaselineTopic(sid, t.name, t.kind, t.category, t.importance, TopicSummaryHead + t.category + TopicSummaryTail)
  }

  function TopicRecords(sid: Id, ts: seq<TopicFixture>): seq<BaselineTopic>
  {
    seq(|ts|, i requires 0 <= i < |ts| => TopicRecord(sid, ts[i]))
  }

  /**
   * The diff row for one change: a deprecated title is the diff's `fromTitle`,
   * any other change's title its `toTitle`.
   */
  function DiffFor(runId: Id, c: Change): YearDiff {
    YearDiff(runId, c.kind,
             if c.kind == Deprecate then Some(c.title) else None,
             if c.kind != Deprecate then Some(c.title) else None,
             c.rationale, DiffConfidence, [], DiffImportance)
  }

  /**
   * Exactly one of a diff's titles is set: `fromTitle` for a deprecation and
   * `toTitle` otherwise, and it is the change's title; the type and the
   * rationale are copied, and the confidence, evidence and importance are fixed.
   */
  lemma DiffForSpec(runId: Id, c: Change)
    ensures var d := DiffFor(runId, c);
            && (d.fromTitle.Some? <==> d.toTitle.None?)
            && (d.fromTitle.Some? <==> c.kind == Deprecate)
            && (d.fromTitle.Some? ==> d.fromTitle.value == c.title)
            && (d.toTitle.Some? ==> d.toTitle.value == c.title)
            && d.runId == runId && d.changeType == c.kind && d.rationale == c.rationale
            && d.confidence == 0.95 && d.evidence == [] && d.importance == 8
  {
  }

  function DiffsFor(runId: Id, cs: seq<Change>): seq<YearDiff>
  {
    seq(|cs|, i requires 0 <= i < |cs| => DiffFor(runId, cs[i]))
  }

  /** The fixed parts of a canon item: its type, its summary after the authors, and its paper type. */
  const CanonKind := "paper"
  const CanonSummaryTail := ": Groundbreaking research in computer vision"
  const CanonPaperType := "research"

  /** The canon row for one paper of a fixture year. */
  function CanonFor(year: int, p: Paper): CanonItem {
    CanonItem(Discipline, CanonKind, p.title, p.url, p.venue, year, p.authors + CanonSummaryTail, p.authors, CanonPaperType)
  }

  function CanonsFor(f: FixtureYear): seq<CanonItem>
  {
    seq(|f.papers|, i requires 0 <= i < |f.papers| => CanonFor(f.year, f.papers[i]))
  }

  /** The runs created for the fixture years, their ids counted up from `first`. */
  function RunsFor(sid: Id, first: Id, fs: seq<FixtureYear>): seq<YearRun>
  {
    seq(|fs|, k requires 0 <= k < |fs| => YearRun(first + k, sid, fs[k].year, CompletedStatus))
  }

  lemma RunsForSnoc(sid: Id, first: Id, fs: seq<FixtureYear>, k: nat)
    requires k < |fs|
    ensures RunsFor(sid, first, fs[..k + 1]) == RunsFor(sid, first, fs[..k]) + [YearRun(first + k, sid, fs[k].year, CompletedStatus)]
  {
  }

  /** The diffs created for the fixture years, year after year. */
  function AllDiffs(first: Id, fs: seq<FixtureYear>): seq<YearDiff>
    decreases |fs|
  {
    if fs == [] then [] else DiffsFor(first, fs[0].changes) + AllDiffs(first + 1, fs[1..])
  }

  /** The canon items created for the fixture years, year after year. */
  function AllCanon(fs: seq<FixtureYear>): seq<CanonItem> {
    if fs == [] then [] else CanonsFor(fs[0]) + AllCanon(fs[1..])
  }

  lemma {:induction false} AllDiffsSnoc(first: Id, fs: seq<FixtureYear>, f: FixtureYear)
    ensures AllDiffs(first, fs + [f]) == AllDiffs(first, fs) + DiffsFor(first + |fs|, f.changes)
    decreases |fs|
  {
    if fs == [] {
      assert [] + [f] == [f];
    } else {
      assert (fs + [f])[0] == fs[0];
      assert (fs + [f])[1..] == fs[1..] + [f];
      AllDiffsSnoc(first + 1, fs[1..], f);
    }
  }

  lemma {:induction false} AllCanonSnoc(fs: seq<FixtureYear>, f: FixtureYear)
    ensures AllCanon(fs + [f]) == AllCanon(fs) + CanonsFor(f)
  {
    if fs == [] {
      assert [] + [f] == [f];
    } else {
      assert (fs + [f])[0] == fs[0];
      assert (fs + [f])[1..] == fs[1..] + [f];
      AllCanonSnoc(fs[1..], f);
    }
  }

  /** One more pass of the loop over the fixture years appends that year's diffs. */
  lemma DiffsStep(before: seq<YearDiff>, d0: seq<YearDiff>, d1: seq<YearDiff>, first: Id, fs: seq<FixtureYear>, k: nat)
    requires k < |fs|
    requires d0 == before + AllDiffs(first, fs[..k])
    requires d1 == d0 + DiffsFor(first + k, fs[k].changes)
    ensures d1 == before + AllDiffs(first, fs[..k + 1])
  {
    assert fs[..k + 1] == fs[..k] + [fs[k]];
    AllDiffsSnoc(first, fs[..k], fs[k]);
  }

  /** One more pass of the loop over the fixture years appends that year's canon items. */
  lemma CanonStep(before: seq<CanonItem>, c0: seq<CanonItem>, c1: seq<CanonItem>, fs: seq<FixtureYear>, k: nat)
    requires k < |fs|
    requires c0 == before + AllCanon(fs[..k])
    requires c1 == c0 + CanonsFor(fs[k])
    ensures c1 == before + AllCanon(fs[..k + 1])
  {
    assert fs[..k + 1] == fs[..k] + [fs[k]];
    AllCanonSnoc(fs[..k], fs[k]);
  }

  /** One more pass of the loop over the fixture years appends that year's run. */
  lemma RunsStep(before: seq<YearRun>, r0: seq<YearRun>, r1: seq<YearRun>, sid: Id, first: Id, fs: seq<FixtureYear>, k: nat)
    requires k < |fs|
    requires r0 == before + RunsFor(sid, first, fs[..k])
    requires r1 == r0 + [YearRun(first + k, sid, fs[k].year, CompletedStatus)]
    ensures r1 == before + RunsFor(sid, first, fs[..k + 1])
  {
    RunsForSnoc(sid, first, fs, k);
  }

  /** One canon item per paper. */
  lemma {:induction false} AllCanonLength(fs: seq<FixtureYear>)
    ensures |AllCanon(fs)| == TotalPapers(fs)
  {
    if fs != [] {
      AllCanonLength(fs[1..]);
    }
  }

  /** The diffs of the run with id `rid` are exactly the diffs of its year's changes, one per change, in order. */
  lemma {:induction false} AllDiffsPerRun(first: Id, fs: seq<FixtureYear>, rid: Id)
    requires first <= rid < first + |fs|
    ensures Filter(AllDiffs(first, fs), DiffOfRun(rid)) == DiffsFor(rid, fs[rid - first].changes)
    ensures |Filter(AllDiffs(first, fs), DiffOfRun(rid))| == |fs[rid - first].changes|
    decreases |fs|
  {
    var head := DiffsFor(first, fs[0].changes);
    var tail := AllDiffs(first + 1, fs[1..]);
    assert AllDiffs(first, fs) == head + tail;
    FilterAppend(head, tail, DiffOfRun(rid));
    FilterDiffsFor(first, fs[0].changes, rid);
    if rid == first {
      AllDiffsRunIds(first + 1, fs[1..]);
      assert forall i :: 0 <= i < |tail| ==> !DiffOfRun(rid)(tail[i]);
      FilterAllOrNone(tail, DiffOfRun(rid));
      assert head + [] == head;
    } else {
      AllDiffsPerRun(first + 1, fs[1..], rid);
      assert fs[1..][rid - (first + 1)] == fs[rid - first];
      assert [] + Filter(tail, DiffOfRun(rid)) == Filter(tail, DiffOfRun(rid));
    }
  }

  /** The diffs of one run are all kept by a filter for that run and none by a filter for another. */
  lemma FilterDiffsFor(runId: Id, cs: seq<Change>, rid: Id)
    ensures Filter(DiffsFor(runId, cs), DiffOfRun(rid)) == if runId == rid then DiffsFor(runId, cs) else []
  {
    var ds := DiffsFor(runId, cs);
    if runId == rid {
      assert forall i :: 0 <= i < |ds| ==> DiffOfRun(rid)(ds[i]);
    } else {
      assert forall i :: 0 <= i < |ds| ==> !DiffOfRun(rid)(ds[i]);
    }
    FilterAllOrNone(ds, DiffOfRun(rid));
  }

  /** The created diffs point at the created runs' ids. */
  lemma {:induction false} AllDiffsRunIds(first: Id, fs: seq<FixtureYear>)
    ensures forall i :: 0 <= i < |AllDiffs(first, fs)| ==> first <= AllDiffs(first, fs)[i].runId < first + |fs|
    decreases |fs|
  {
    if fs != [] {
      AllDiffsRunIds(first + 1, fs[1..]);
      var head: seq<YearDiff> := DiffsFor(first, fs[0].changes);
      var tail: seq<YearDiff> := AllDiffs(first + 1, fs[1..]);
      assert AllDiffs(first, fs) == head + tail;
      forall i | 0 <= i < |head + tail|
        ensures first <= (head + tail)[i].runId < first + |fs|
      {
        if i >= |head| {
          assert (head + tail)[i] == tail[i - |head|];
        }
      }
    }
  }

  /**
   * Deleting the diffs first, through their runs, and the runs after leaves no
   * diff pointing at a missing run.
   */
  lemma DeleteOrderKeepsDiffsLinked(runs: seq<YearRun>, diffs: seq<YearDiff>, sid: Id)
    requires forall d :: d in diffs ==> d.runId in RunIds(runs)
    ensures var diffs' := Filter(diffs, DiffNotIn(RunIdsOf(runs, sid)));
            var runs' := Filter(runs, RunNotOf(sid));
            forall d :: d in diffs' ==> d.runId in RunIds(runs')
  {
    var doomed := RunIdsOf(runs, sid);
    var diffs' := Filter(diffs, DiffNotIn(doomed));
    var runs' := Filter(runs, RunNotOf(sid));
    FilterMembers(diffs, DiffNotIn(doomed));
    FilterMembers(runs, RunNotOf(sid));
    forall d | d in diffs' ensures d.runId in RunIds(runs') {
      var r :| r in runs && r.id == d.runId;
      assert r.subjectId != sid;
      assert r in runs';
    }
  }

  /**
   * Deleting the runs first would leave the relation filter nothing to reach,
   * so a diff of a deleted run would stay behind, pointing nowhere.
   */
  lemma RunsFirstLeavesDanglingDiff()
    ensures var runs := [YearRun(0, 1, 2012, CompletedStatus)];
            var diffs := [DiffFor(0, Change(Add, "CNNs", ""))];
            var runs' := Filter(runs, RunNotOf(1));
            var diffs' := Filter(diffs, DiffNotIn(RunIdsOf(runs', 1)));
            && (forall d :: d in diffs ==> d.runId in RunIds(runs))
            && |diffs'| == 1 && diffs'[0].runId !in RunIds(runs')
  {
    var runs := [YearRun(0, 1, 2012, CompletedStatus)];
    var runs' := Filter(runs, RunNotOf(1));
    assert runs[1..] == [];
    assert runs' == [];
    var diffs := [DiffFor(0, Change(Add, "CNNs", ""))];
    assert diffs[1..] == [];
    assert RunIds(runs) == {0};
    assert RunIdsOf(runs', 1) == {};
  }

  // ---------------------------------------------------------------------------
  // The store
  // ---------------------------------------------------------------------------

  class CatalogStore {
    var users: seq<User>
    var subjects: seq<Subject>
    var topics: seq<BaselineTopic>
    var runs: seq<YearRun>
    var diffs: seq<YearDiff>
    var canon: seq<CanonItem>
    /** The next id the store hands out. */
    var nextId: Id

    /** User, subject and run ids are below the counter, every diff points at a run, and emails are unique. */
    ghost predicate Valid()
      reads this
    {
      && IdsBelow(users, subjects, runs, nextId)
      && (forall d :: d in diffs ==> d.runId in RunIds(runs))
      && UniqueEmails(users)
    }

    /** An empty store. */
    constructor ()
      ensures Valid()
      ensures users == [] && subjects == [] && topics == [] && runs == [] && diffs == [] && canon == []
    {
      users, subjects, topics, runs, diffs, canon := [], [], [], [], [], [];
      nextId := 0;
    }

    /**
     * `user.upsert` with an empty update: an existing user with the email is
     * returned untouched, otherwise exactly one is created.
     */
    method UpsertUser(email: string, name: string) returns (u: User)
      requires Valid()
      modifies this
      ensures Valid()
      ensures u.email == email && FindUser(users, email) == Some(u)
      ensures FindUser(old(users), email).Some? ==>
                u == FindUser(old(users), email).value && users == old(users) && nextId == old(nextId)
      ensures FindUser(old(users), email).None? ==>
                u == User(old(nextId), email, name) && users == old(users) + [u] && nextId == old(nextId) + 1
      ensures subjects == old(subjects) && topics == old(topics) && runs == old(runs)
      ensures diffs == old(diffs) && canon == old(canon)
    {
      var found := FindUser(users, email);
      if found.Some? {
        u := found.value;
      } else {
        u := User(nextId, email, name);
        FindUserAfterMiss(users, u);
        users := users + [u];
        nextId := nextId + 1;
      }
    }

    /**
     * `findFirst` on (user, title) `|| create`: an existing subject is reused,
     * otherwise exactly one is created.
     */
    method FindOrCreateSubject(userId: Id, title: string, discipline: string, baselineYear: int, description: string)
      returns (s: Subject)
      requires Valid()
      modifies this
      ensures Valid()
      ensures s.userId == userId && s.title == title && FindSubject(subjects, userId, title) == Some(s)
      ensures FindSubject(old(subjects), userId, title).Some? ==>
                s == FindSubject(old(subjects), userId, title).value && subjects == old(subjects) && nextId == old(nextId)
      ensures FindSubject(old(subjects), userId, title).None? ==>
                s == Subject(old(nextId), userId, title, discipline, baselineYear, description)
                && subjects == old(subjects) + [s] && nextId == old(nextId) + 1
      ensures users == old(users) && topics == old(topics) && runs == old(runs)
      ensures diffs == old(diffs) && canon == old(canon)
    {
      var existing := FindSubject(subjects, userId, title);
      if existing.Some? {
        s := existing.value;
      } else {
        s := Subject(nextId, userId, title, discipline, baselineYear, description);
        FindSubjectAfterMiss(subjects, s);
        subjects := subjects + [s];
        nextId := nextId + 1;
      }
    }

    /**
     * The three `deleteMany` calls in order: the subject's topics, the diffs
     * of its runs, then its runs.
     */
    method ClearSubject(sid: Id)
      requires Valid()
      modifies this
      ensures Valid()
      ensures topics == Filter(old(topics), TopicNotOf(sid))
      ensures diffs == Filter(old(diffs), DiffNotIn(RunIdsOf(old(runs), sid)))
      ensures runs == Filter(old(runs), RunNotOf(sid))
      ensures users == old(users) && subjects == old(subjects) && canon == old(canon) && nextId == old(nextId)
    {
      DeleteOrderKeepsDiffsLinked(runs, diffs, sid);
      FilterMembers(runs, RunNotOf(sid));
      topics := Filter(topics, TopicNotOf(sid));
      diffs := Filter(diffs, DiffNotIn(RunIdsOf(runs, sid)));
      runs := Filter(runs, RunNotOf(sid));
    }

    /** The loop over `baselineTopics`: one topic row per entry, in order. */
    method CreateTopics(sid: Id)
      requires Valid()
      modifies this
      ensures Valid()
      ensures topics == old(topics) + TopicRecords(sid, BaselineTopics)
      ensures users == old(users) && subjects == old(subjects) && runs == old(runs)
      ensures diffs == old(diffs) && canon == old(canon) && nextId == old(nextId)
    {
      var fixtures := BaselineTopics;
      var i := 0;
      while i < |fixtures|
        invariant 0 <= i <= |fixtures|
        invariant topics == old(topics) + TopicRecords(sid, fixtures[..i])
        invariant users == old(users) && subjects == old(subjects) && runs == old(runs)
        invariant diffs == old(diffs) && canon == old(canon) && nextId == old(nextId)
      {
        assert TopicRecords(sid, fixtures[..i + 1]) == TopicRecords(sid, fixtures[..i]) + [TopicRecord(sid, fixtures[i])];
        topics := topics + [TopicRecord(sid, fixtures[i])];
        i := i + 1;
      }
      assert fixtures[..i] == fixtures;
    }

    /**
     * One pass of the year loop: a completed run, a diff per change pointing
     * at it, and a canon item per paper.
     */
    method CreateYear(sid: Id, f: FixtureYear)
      requires Valid()
      modifies this
      ensures Valid()
      ensures runs == old(runs) + [YearRun(old(nextId), sid, f.year, CompletedStatus)]
      ensures diffs == old(diffs) + DiffsFor(old(nextId), f.changes)
      ensures canon == old(canon) + CanonsFor(f)
      ensures nextId == old(nextId) + 1
      ensures users == old(users) && subjects == old(subjects) && topics == old(topics)
    {
      var run := YearRun(nextId, sid, f.year, CompletedStatus);
      runs := runs + [run];
      nextId := nextId + 1;
      assert run.id in RunIds(runs);
      var i := 0;
      while i < |f.changes|
        invariant 0 <= i <= |f.changes|
        invariant diffs == old(diffs) + DiffsFor(run.id, f.changes[..i])
        invariant IdsBelow(users, subjects, runs, nextId) && UniqueEmails(users)
        invariant forall d :: d in diffs ==> d.runId in RunIds(runs)
        invariant runs == old(runs) + [run] && nextId == old(nextId) + 1 && canon == old(canon)
        invariant users == old(users) && subjects == old(subjects) && topics == old(topics)
      {
        assert DiffsFor(run.id, f.changes[..i + 1]) == DiffsFor(run.id, f.changes[..i]) + [DiffFor(run.id, f.changes[i])];
        diffs := diffs + [DiffFor(run.id, f.changes[i])];
        i := i + 1;
      }
      assert f.changes[..i] == f.changes;
      var j := 0;
      while j < |f.papers|
        invariant 0 <= j <= |f.papers|
        invariant canon == old(canon) + CanonsFor(FixtureYear(f.year, f.changes, f.papers[..j]))
        invariant IdsBelow(users, subjects, runs, nextId) && UniqueEmails(users)
        invariant forall d :: d in diffs ==> d.runId in RunIds(runs)
        invariant runs == old(runs) + [run] && nextId == old(nextId) + 1
        invariant diffs == old(diffs) + DiffsFor(run.id, f.changes)
        invariant users == old(users) && subjects == old(subjects) && topics == old(topics)
      {
        assert CanonsFor(FixtureYear(f.year, f.changes, f.papers[..j + 1]))
            == CanonsFor(FixtureYear(f.year, f.changes, f.papers[..j])) + [CanonFor(f.year, f.papers[j])];
        canon := canon + [CanonFor(f.year, f.papers[j])];
        j := j + 1;
      }
      assert f.papers[..j] == f.papers;
    }

    /** The loop over the fixture years. */
    method CreateYears(sid: Id, fs: seq<FixtureYear>)
      requires Valid()
      modifies this
      ensures Valid()
      ensures runs == old(runs) + RunsFor(sid, old(nextId), fs)
      ensures diffs == old(diffs) + AllDiffs(old(nextId), fs)
      ensures canon == old(canon) + AllCanon(fs)
      ensures nextId == old(nextId) + |fs|
      ensures users == old(users) && subjects == old(subjects) && topics == old(topics)
    {
      var first := nextId;
      var k := 0;
      while k < |fs|
        invariant 0 <= k <= |fs|
        invariant Valid()
        invariant nextId == first + k
        invariant runs == old(runs) + RunsFor(sid, first, fs[..k])
        invariant diffs == old(diffs) + AllDiffs(first, fs[..k])
        invariant canon == old(canon) + AllCanon(fs[..k])
        invariant users == old(users) && subjects == old(subjects) && topics == old(topics)
      {
        ghost var diffs0, canon0, runs0 := diffs, canon, runs;
        CreateYear(sid, fs[k]);
        DiffsStep(old(diffs), diffs0, diffs, first, fs, k);
        CanonStep(old(canon), canon0, canon, fs, k);
        RunsStep(old(runs), runs0, runs, sid, first, fs, k);
        k := k + 1;
      }
      assert fs[..k] == fs;
    }

    /**
     * The seed script's `main`. The demo user and its subject are found or
     * created once, a miss appending exactly the new row; the subject's topics
     * and runs are exactly the ten topics and eight completed runs just
     * created, each run's diffs exactly one per change of its year; other
     * subjects' topics and runs, and the diffs of runs not the subject's, are
     * untouched; and canon items are only ever appended, fifteen per run.
     */
    method Seed() returns (user: User, subject: Subject)
      requires Valid()
      modifies this
      ensures Valid()
      ensures user.email == DemoEmail && FindUser(users, DemoEmail) == Some(user)
      ensures FindUser(old(users), DemoEmail).Some? ==> users == old(users)
      ensures FindUser(old(users), DemoEmail).None? ==> users == old(users) + [user]
      ensures subject.userId == user.id && subject.title == SubjectTitle
      ensures FindSubject(subjects, user.id, SubjectTitle) == Some(subject)
      ensures FindSubject(old(subjects), user.id, SubjectTitle).Some? ==> subjects == old(subjects)
      ensures FindSubject(old(subjects), user.id, SubjectTitle).None? ==> subjects == old(subjects) + [subject]
      ensures Filter(topics, TopicOf(subject.id)) == TopicRecords(subject.id, BaselineTopics)
      ensures Filter(topics, TopicNotOf(subject.id)) == Filter(old(topics), TopicNotOf(subject.id))
      ensures exists first :: Filter(runs, RunOf(subject.id)) == RunsFor(subject.id, first, FixtureYears)
      ensures forall k :: 0 <= k < |Filter(runs, RunOf(subject.id))| ==>
                Filter(diffs, DiffOfRun(Filter(runs, RunOf(subject.id))[k].id))
                == DiffsFor(Filter(runs, RunOf(subject.id))[k].id, FixtureYears[k].changes)
      ensures Filter(diffs, DiffNotIn(RunIdsOf(runs, subject.id))) == Filter(old(diffs), DiffNotIn(RunIdsOf(old(runs), subject.id)))
      ensures Filter(runs, RunNotOf(subject.id)) == Filter(old(runs), RunNotOf(subject.id))
      ensures canon == old(canon) + AllCanon(FixtureYears)
    {
      user := UpsertUser(DemoEmail, DemoName);
      subject := FindOrCreateSubject(user.id, SubjectTitle, Discipline, BaselineYear, SubjectDescription);
      var sid := subject.id;
      ghost var topics0, runs0 := topics, runs;
      ClearSubject(sid);
      ghost var cleared, clearedDiffs := runs, diffs;
      CreateTopics(sid);
      ghost var first := nextId;
      CreateYears(sid, FixtureYears);
      SeededTopics(topics0, sid);
      SeededRuns(runs0, sid, first, FixtureYears);
      SeededDiffs(runs, diffs, cleared, clearedDiffs, sid, first, FixtureYears);
      SeededOtherDiffs(runs, diffs, cleared, clearedDiffs, sid, first, FixtureYears);
    }
  }

  /**
   * Rows the condition rejects followed by rows it accepts: filtering keeps
   * exactly the latter, and filtering by the opposite condition the former.
   */
  lemma {:induction false} FilterSplit<T>(kept: seq<T>, made: seq<T>, p: T -> bool, q: T -> bool)
    requires forall i :: 0 <= i < |kept| ==> !p(kept[i]) && q(kept[i])
    requires forall i :: 0 <= i < |made| ==> p(made[i]) && !q(made[i])
    ensures Filter(kept + made, p) == made
    ensures Filter(kept + made, q) == kept
  {
    FilterAppend(kept, made, p);
    FilterAppend(kept, made, q);
    FilterAllOrNone(kept, p);
    FilterAllOrNone(kept, q);
    FilterAllOrNone(made, p);
    FilterAllOrNone(made, q);
  }

  /** After clearing and recreating, a subject's topics are exactly the fixture topics. */
  lemma SeededTopics(topics0: seq<BaselineTopic>, sid: Id)
    ensures var after := Filter(topics0, TopicNotOf(sid)) + TopicRecords(sid, BaselineTopics);
            && Filter(after, TopicOf(sid)) == TopicRecords(sid, BaselineTopics)
            && Filter(after, TopicNotOf(sid)) == Filter(topics0, TopicNotOf(sid))
  {
    var kept := Filter(topics0, TopicNotOf(sid));
    var made := TopicRecords(sid, BaselineTopics);
    FilterMembers(topics0, TopicNotOf(sid));
    forall i | 0 <= i < |kept| ensures !TopicOf(sid)(kept[i]) && TopicNotOf(sid)(kept[i]) {
      assert kept[i] in kept;
    }
    FilterSplit(kept, made, TopicOf(sid), TopicNotOf(sid));
  }

  /** After clearing and recreating, a subject's runs are exactly the runs just created. */
  lemma SeededRuns(runs0: seq<YearRun>, sid: Id, first: Id, fs: seq<FixtureYear>)
    ensures var after := Filter(runs0, RunNotOf(sid)) + RunsFor(sid, first, fs);
            && Filter(after, RunOf(sid)) == RunsFor(sid, first, fs)
            && Filter(after, RunNotOf(sid)) == Filter(runs0, RunNotOf(sid))
  {
    var kept := Filter(runs0, RunNotOf(sid));
    var made := RunsFor(sid, first, fs);
    FilterMembers(runs0, RunNotOf(sid));
    forall i | 0 <= i < |kept| ensures !RunOf(sid)(kept[i]) && RunNotOf(sid)(kept[i]) {
      assert kept[i] in kept;
    }
    FilterSplit(kept, made, RunOf(sid), RunNotOf(sid));
  }

  /**
   * A recreated run's diffs are exactly its year's diffs, one per change, in
   * order: the diffs that survived the clearing all point at older runs.
   */
  lemma SeededDiffs(runs: seq<YearRun>, diffs: seq<YearDiff>, cleared: seq<YearRun>, clearedDiffs: seq<YearDiff>,
                    sid: Id, first: Id, fs: seq<FixtureYear>)
    requires Filter(runs, RunOf(sid)) == RunsFor(sid, first, fs)
    requires diffs == clearedDiffs + AllDiffs(first, fs)
    requires forall r :: r in cleared ==> r.id < first
    requires forall d :: d in clearedDiffs ==> d.runId in RunIds(cleared)
    ensures forall k :: 0 <= k < |Filter(runs, RunOf(sid))| ==>
              Filter(diffs, DiffOfRun(Filter(runs, RunOf(sid))[k].id))
              == DiffsFor(Filter(runs, RunOf(sid))[k].id, fs[k].changes)
  {
    forall d | d in clearedDiffs ensures d.runId < first {
      var c :| c in cleared && c.id == d.runId;
    }
    forall k | 0 <= k < |fs|
      ensures Filter(diffs, DiffOfRun(first + k)) == DiffsFor(first + k, fs[k].changes)
    {
      NewRunDiffs(clearedDiffs, first, fs, k);
    }
  }

  /** A new run's diffs, next to older diffs that all point at older runs, are exactly its year's diffs. */
  lemma NewRunDiffs(older: seq<YearDiff>, first: Id, fs: seq<FixtureYear>, k: nat)
    requires k < |fs|
    requires forall d :: d in older ==> d.runId < first
    ensures Filter(older + AllDiffs(first, fs), DiffOfRun(first + k)) == DiffsFor(first + k, fs[k].changes)
  {
    var made := AllDiffs(first, fs);
    FilterAppend(older, made, DiffOfRun(first + k));
    forall i | 0 <= i < |older| ensures !DiffOfRun(first + k)(older[i]) {
      assert older[i] in older;
    }
    FilterAllOrNone(older, DiffOfRun(first + k));
    AllDiffsPerRun(first, fs, first + k);
    assert fs[first + k - first] == fs[k];
    assert [] + Filter(made, DiffOfRun(first + k)) == Filter(made, DiffOfRun(first + k));
  }

  /**
   * After clearing and recreating, the diffs that point at none of the
   * subject's runs are exactly those the clearing kept: the new diffs all
   * point at the new runs, the kept ones at older runs.
   */
  lemma SeededOtherDiffs(runs: seq<YearRun>, diffs: seq<YearDiff>, cleared: seq<YearRun>, clearedDiffs: seq<YearDiff>,
                         sid: Id, first: Id, fs: seq<FixtureYear>)
    requires Filter(runs, RunOf(sid)) == RunsFor(sid, first, fs)
    requires diffs == clearedDiffs + AllDiffs(first, fs)
    requires forall r :: r in cleared ==> r.id < first
    requires forall d :: d in clearedDiffs ==> d.runId in RunIds(cleared)
    ensures Filter(diffs, DiffNotIn(RunIdsOf(runs, sid))) == clearedDiffs
  {
    var ids := RunIdsOf(runs, sid);
    var made := AllDiffs(first, fs);
    FilterMembers(runs, RunOf(sid));
    forall id | id in ids ensures id >= first {
      var r :| r in runs && r.subjectId == sid && r.id == id;
      assert r in RunsFor(sid, first, fs);
    }
    forall i | 0 <= i < |clearedDiffs| ensures DiffNotIn(ids)(clearedDiffs[i]) {
      var d := clearedDiffs[i];
      assert d in clearedDiffs;
      var c :| c in cleared && c.id == d.runId;
    }
    AllDiffsRunIds(first, fs);
    forall i | 0 <= i < |made| ensures !DiffNotIn(ids)(made[i]) {
      var k := made[i].runId - first;
      var r := RunsFor(sid, first, fs)[k];
      assert r in Filter(runs, RunOf(sid));
    }
    FilterAppend(clearedDiffs, made, DiffNotIn(ids));
    FilterAllOrNone(clearedDiffs, DiffNotIn(ids));
    FilterAllOrNone(made, DiffNotIn(ids));
    assert clearedDiffs + [] == clearedDiffs;
  }

  /**
   * A seeded subject has ten topics and eight runs, all completed, one per
   * fixture year in order; each seeding adds fifteen canon items.
   */
  lemma SeededCounts(sid: Id, first: Id)
    ensures |TopicRecords(sid, BaselineTopics)| == 10
    ensures var rs := RunsFor(sid, first, FixtureYears);
            && |rs| == 8
            && forall k :: 0 <= k < 8 ==>
                 rs[k].status == CompletedStatus && rs[k].subjectId == sid && rs[k].year == FixtureYears[k].year
    ensures |AllCanon(FixtureYears)| == 15
  {
    BaselineTopicsShape();
    FixtureYearsShape();
    FixtureTotals();
    AllCanonLength(FixtureYears);
  }

  /**
   * Running the script twice: the second run finds the user and the subject
   * the first one left, and the canon table holds thirty more rows.
   */
  method SeedTwice(store: CatalogStore) returns (user1: User, subject1: Subject, user2: User, subject2: Subject)
    requires store.Valid()
    modifies store
    ensures store.Valid()
    ensures user2 == user1 && subject2 == subject1
    ensures |store.canon| == |old(store.canon)| + 30
    ensures store.users == old(store.users) || store.users == old(store.users) + [user1]
    ensures store.subjects == old(store.subjects) || store.subjects == old(store.subjects) + [subject1]
    ensures |store.users| <= |old(store.users)| + 1
    ensures |store.subjects| <= |old(store.subjects)| + 1
    ensures FindUser(old(store.users), DemoEmail).Some? ==> store.users == old(store.users)
    ensures FindSubject(old(store.subjects), user1.id, SubjectTitle).Some? ==> store.subjects == old(store.subjects)
  {
    user1, subject1 := store.Seed();
    user2, subject2 := store.Seed();
    SeededCounts(subject1.id, 0);
  }
}
