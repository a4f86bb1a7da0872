/** The root-code visit report. For a period and a set of ICD-10 roots it
    counts, per root, the visits whose main diagnosis falls under that root,
    both in total (`SummaryByRoot`) and per patient (`VisitsByRoot` of each
    patient's record). */
module ReportService {
  import opened Common
  import opened Entities
  import opened Store
  import InspectionRepository

  /** One patient's line: who they are and how many of their visits fell
      under each root. */
  datatype ReportRecord = ReportRecord(
    patientName: string,
    patientBirthdate: DateTime,
    gender: Gender,
    visitsByRoot: map<string, nat>)

  datatype ReportFilters = ReportFilters(start: DateTime, end: DateTime, icdRoots: seq<string>)

  datatype Report = Report(filters: ReportFilters, summaryByRoot: map<string, nat>, records: seq<ReportRecord>)

  /** The tables the counting loop reads. */
  datatype Tables = Tables(patients: seq<PatientEntity>, icds: seq<Icd10Entity>, diagnoses: seq<DiagnosisEntity>)

  /** A dictionary read with an absent key counting as 0. */
  function Get(m: map<string, nat>, c: string): nat {
    if c in m then m[c] else 0
  }

  /** `m[c]++`, creating the entry at 0 first when it is missing. */
  function Bump(m: map<string, nat>, c: string): (r: map<string, nat>)
    ensures c in r && forall d :: d != c ==> Get(r, d) == Get(m, d)
    ensures Get(r, c) == Get(m, c) + 1
    ensures r.Keys == m.Keys + {c}
  {
    m[c := Get(m, c) + 1]
  }

  // ---------------------------------------------------------------------
  // The roots

  function Parentless(): Icd10Entity -> bool {
    (i: Icd10Entity) => i.icdParentId.None?
  }

  /** The codes of all top-level records, in table order. */
  function ParentlessCodes(icds: seq<Icd10Entity>): (r: seq<Option<string>>)
    ensures |r| == CountIf(icds, Parentless())
    ensures forall c :: c in r ==> exists i :: i in icds && i.icdParentId.None? && c == i.code
    ensures forall i :: i in icds && i.icdParentId.None? ==> i.code in r
  {
    var tops := Filter(icds, Parentless());
    var r := MapSeq(tops, (i: Icd10Entity) => i.code);
    assert forall i :: i in icds && i.icdParentId.None? ==> i.code in r by {
      forall i | i in icds && i.icdParentId.None? ensures i.code in r {
        assert i in tops;
        var k :| 0 <= k < |tops| && tops[k] == i;
        assert r[k] == i.code;
      }
    }
    assert forall c :: c in r ==> exists i :: i in icds && i.icdParentId.None? && c == i.code by {
      forall c | c in r ensures exists i :: i in icds && i.icdParentId.None? && c == i.code {
        var k :| 0 <= k < |r| && r[k] == c;
        assert tops[k] in tops;
        assert tops[k] in icds && tops[k].icdParentId.None? && c == tops[k].code;
      }
    }
    r
  }

  /** The `k`-th code is that of the `k`-th top-level row of the table. */
  lemma ParentlessInTableOrder(icds: seq<Icd10Entity>)
    ensures var r := ParentlessCodes(icds);
      var at := Positions(icds, Parentless());
      |r| == |at| && forall k :: 0 <= k < |r| ==> r[k] == icds[at[k]].code
  {
    var tops := Filter(icds, Parentless());
    FilterInOrder(icds, Parentless());
    assert ParentlessCodes(icds) == MapSeq(tops, (i: Icd10Entity) => i.code);
  }

  /** The codes the report is about, each null when it cannot be found: all
      top-level codes when no ids are requested, otherwise the code of each
      requested id, in request order. */
  function RequestedCodes(icds: seq<Icd10Entity>, ids: seq<Guid>): (r: seq<Option<string>>)
    ensures |ids| == 0 ==> |r| == CountIf(icds, Parentless())
    ensures |ids| == 0 ==> forall c :: c in r ==> exists i :: i in icds && i.icdParentId.None? && c == i.code
    ensures |ids| == 0 ==> forall i :: i in icds && i.icdParentId.None? ==> i.code in r
    ensures |ids| > 0 ==> |r| == |ids|
    ensures |ids| > 0 ==> forall k :: 0 <= k < |r| ==>
      && (r[k].Some? ==> exists i :: i in icds && i.id == ids[k] && i.code == r[k])
      && ((forall i :: i in icds ==> i.id != ids[k]) ==> r[k].None?)
    ensures |ids| > 0 ==> forall k :: 0 <= k < |r| ==> r[k] == InspectionRepository.IcdCode(icds, ids[k])
  {
    if |ids| == 0 then
      ParentlessCodes(icds)
    else MapSeq(ids, id => InspectionRepository.IcdCode(icds, id))
  }

  predicate AllFound(found: seq<Option<string>>) {
    forall k :: 0 <= k < |found| ==> found[k].Some?
  }

  /** Row `j` is the first ICD-10 record with id `id`, and it has a code. */
  predicate CodedAt(icds: seq<Icd10Entity>, id: Guid, j: int) {
    && 0 <= j < |icds| && icds[j].id == id && icds[j].code.Some?
    && forall j' :: 0 <= j' < j ==> icds[j'].id != id
  }

  /** Some row is the first record with id `id` and has a code. */
  ghost predicate HasCode(icds: seq<Icd10Entity>, id: Guid) {
    exists j :: CodedAt(icds, id, j)
  }

  /** An id resolves to a code exactly when the first record with that id
      has one. */
  lemma IcdCodeFound(icds: seq<Icd10Entity>, id: Guid)
    ensures InspectionRepository.IcdCode(icds, id).Some? <==> HasCode(icds, id)
  {
    var r := InspectionRepository.IcdCode(icds, id);
    if r.Some? {
      var k :| 0 <= k < |icds| && icds[k].id == id && r == icds[k].code
        && forall j :: 0 <= j < k ==> icds[j].id != id;
      assert CodedAt(icds, id, k);
    }
    if j :| CodedAt(icds, id, j) {
      assert icds[j] in icds;
      var k :| 0 <= k < |icds| && icds[k].id == id && r == icds[k].code
        && forall j' :: 0 <= j' < k ==> icds[j'].id != id;
      assert k == j;
    }
  }

  /** `GetReport` throws `KeyNotFoundException` exactly when this fails:
      with no ids, every top-level record has a code; with ids, every id
      names a record whose first occurrence has a code. */
  lemma RootsFound(icds: seq<Icd10Entity>, ids: seq<Guid>)
    ensures AllFound(RequestedCodes(icds, ids)) <==>
      if |ids| == 0 then forall i :: i in icds && i.icdParentId.None? ==> i.code.Some?
      else forall k :: 0 <= k < |ids| ==> HasCode(icds, ids[k])
  {
    var r := RequestedCodes(icds, ids);
    if |ids| == 0 {
      if AllFound(r) {
        forall i | i in icds && i.icdParentId.None? ensures i.code.Some? {
          var k :| 0 <= k < |r| && r[k] == i.code;
        }
      } else {
        var k :| 0 <= k < |r| && r[k].None?;
        assert r[k] in r;
        var i :| i in icds && i.icdParentId.None? && r[k] == i.code;
        assert i.code.None?;
      }
    } else {
      forall k | 0 <= k < |ids|
        ensures r[k].Some? <==> HasCode(icds, ids[k])
      {
        IcdCodeFound(icds, ids[k]);
      }
      assert |r| == |ids|;
      if AllFound(r) {
        forall k | 0 <= k < |ids| ensures HasCode(icds, ids[k]) {
          assert r[k].Some?;
        }
      } else {
        var k :| 0 <= k < |r| && r[k].None?;
        assert !HasCode(icds, ids[k]);
      }
    }
  }

  function Codes(found: seq<Option<string>>): (r: seq<string>)
    requires AllFound(found)
    ensures |r| == |found| && forall k :: 0 <= k < |r| ==> found[k] == Some(r[k])
  {
    seq(|found|, k requires 0 <= k < |found| => found[k].value)
  }

  /** `summary[root] = 0` for every root. */
  function ZeroCounters(roots: seq<string>): (r: map<string, nat>)
    ensures forall c :: c in r <==> c in roots
    ensures forall c :: Get(r, c) == 0
  {
    map c | c in roots :: 0
  }

  // ---------------------------------------------------------------------
  // The counting loop

  /** The visits of the period: those with a date between `start` and
      `end`, both included; a visit without a date is not in any period. */
  function InPeriod(start: DateTime, end: DateTime): InspectionEntity -> bool {
    (i: InspectionEntity) => i.date.Some? && start <= i.date.value <= end
  }

  function IsMain(): DiagnosisEntity -> bool {
    (d: DiagnosisEntity) => d.diagnosisType == Main
  }

  function IcdWithId(id: Guid): Icd10Entity -> bool {
    (i: Icd10Entity) => i.id == id
  }

  /** The ICD-10 record of the visit's first main diagnosis; null when the
      visit has no main diagnosis or the record is missing. */
  function VisitIcd(tb: Tables, i: InspectionEntity): (r: Option<Icd10Entity>)
    ensures r.Some? ==> r.value in tb.icds
    ensures r.Some? ==>
      (exists d :: d in tb.diagnoses && d.inspectionId == i.id && d.diagnosisType == Main && d.icd10Id == r.value.id)
  {
    match First(InspectionRepository.DiagnosesOf(tb.diagnoses, i.id), IsMain())
    case None => None
    case Some(d) => First(tb.icds, IcdWithId(d.icd10Id))
  }

  /** The record comes from the visit's first main diagnosis (in table
      order, `DiagnosesInTableOrder`): it exists exactly when that
      diagnosis names an existing record, and a visit without a main
      diagnosis has none. */
  lemma VisitIcdOfFirstMain(tb: Tables, i: InspectionEntity)
    ensures (forall d :: d in tb.diagnoses && d.inspectionId == i.id ==> d.diagnosisType != Main) ==>
      VisitIcd(tb, i).None?
    ensures var ds := InspectionRepository.DiagnosesOf(tb.diagnoses, i.id);
      var r := VisitIcd(tb, i);
      forall k :: 0 <= k < |ds| && ds[k].diagnosisType == Main && (forall j :: 0 <= j < k ==> ds[j].diagnosisType != Main) ==>
        && (r.Some? <==> exists x :: x in tb.icds && x.id == ds[k].icd10Id)
        && (r.Some? ==> r.value.id == ds[k].icd10Id)
  {
  }

  /** The loop state: the patients met so far in the order they were met,
      their records, and the summary. */
  datatype Tally = Tally(order: seq<Guid>, records: map<Guid, ReportRecord>, summary: map<string, nat>)

  /** A visit counts: `VisitsByRoot[code]++` on its patient's record and
      `SummaryByRoot[code]++`. */
  function Count(t: Tally, pid: Guid, code: string): (r: Tally)
    requires pid in t.records
    ensures r.order == t.order && r.records.Keys == t.records.Keys && r.summary == Bump(t.summary, code)
    ensures forall id :: id in t.records && id != pid ==> r.records[id] == t.records[id]
    ensures var before := t.records[pid]; var after := r.records[pid];
      && after.patientName == before.patientName && after.patientBirthdate == before.patientBirthdate
      && after.gender == before.gender
      && after.visitsByRoot.Keys == before.visitsByRoot.Keys + {code}
      && forall c :: Get(after.visitsByRoot, c) == Get(before.visitsByRoot, c) + (if c == code then 1 else 0)
  {
    Tally(t.order, t.records[pid := t.records[pid].(visitsByRoot := Bump(t.records[pid].visitsByRoot, code))],
          Bump(t.summary, code))
  }

  /** The record a patient met for the first time starts with: name,
      birthday and gender, and no visits. */
  function Meet(t: Tally, p: PatientEntity): (r: Tally)
    requires p.id in t.records || p.birthday.Some?
    ensures p.id in r.records && r.summary == t.summary
    ensures p.id in t.records ==> r == t
    ensures p.id !in t.records ==>
      && r.order == t.order + [p.id]
      && r.records.Keys == t.records.Keys + {p.id}
      && r.records[p.id] == ReportRecord(p.name, p.birthday.value, p.gender, map[])
      && forall id :: id in t.records ==> r.records[id] == t.records[id]
  {
    if p.id in t.records then t
    else Tally(t.order + [p.id], t.records[p.id := ReportRecord(p.name, p.birthday.value, p.gender, map[])], t.summary)
  }

  /** The rest of a turn once the patient's record exists: the visit counts
      under its root code when that code is one of the roots. */
  function Classify(tb: Tables, roots: seq<string>, t: Tally, pid: Guid, i: InspectionEntity): (r: Result<Tally>)
    requires pid in t.records
    ensures r.Failure? ==> r.fault == NullReference
  {
    match VisitIcd(tb, i)
    case None => Failure(NullReference)
    case Some(icd) =>
      if icd.icdRootCode.Some? && icd.icdRootCode.value in roots
      then Success(Count(t, pid, icd.icdRootCode.value))
      else Success(t)
  }

  /** One turn of the loop over the visits of the period. A missing patient,
      a missing birthday on a patient met for the first time, a missing main
      diagnosis and a missing ICD-10 record are each dereferenced as null. */
  function Step(tb: Tables, roots: seq<string>, t: Tally, i: InspectionEntity): (r: Result<Tally>)
    ensures r.Failure? ==> r.fault == NullReference
  {
    match InspectionRepository.PatientOf(tb.patients, i.patientId)
    case None => Failure(NullReference)
    case Some(p) =>
      if p.id !in t.records && p.birthday.None? then Failure(NullReference)
      else Classify(tb, roots, Meet(t, p), p.id, i)
  }

  /** The loop over visits `s` from state `t`; the first failure ends it. */
  function Run(tb: Tables, roots: seq<string>, t: Tally, s: seq<InspectionEntity>): (r: Result<Tally>)
    ensures r.Failure? ==> r.fault == NullReference
    decreases |s|
  {
    if s == [] then Success(t)
    else
      match Step(tb, roots, t, s[0])
      case Failure(f) => Failure(f)
      case Success(t1) => Run(tb, roots, t1, s[1..])
  }

  /** `patientRecords.Values.ToList()`: the records in the order their
      patients were first met. */
  function RecordsInOrder(order: seq<Guid>, records: map<Guid, ReportRecord>): (r: seq<ReportRecord>)
    ensures (forall k :: 0 <= k < |order| ==> order[k] in records) ==>
      |r| == |order| && forall k :: 0 <= k < |order| ==> r[k] == records[order[k]]
  {
    if order == [] then []
    else
      var rest := RecordsInOrder(order[1..], records);
      assert forall k :: 1 <= k < |order| ==> order[k] == order[1..][k - 1];
      (if order[0] in records then [records[order[0]]] else []) + rest
  }

  /** What `GetReport(start, end, icdRoots)` returns or throws. */
  function ReportOf(inspections: seq<InspectionEntity>, tb: Tables, start: DateTime, end: DateTime,
                    ids: seq<Guid>): (r: Result<Report>)
    ensures r == Failure(KeyNotFound) <==> !AllFound(RequestedCodes(tb.icds, ids))
    ensures r.Failure? ==> r.fault == KeyNotFound || r.fault == NullReference
    ensures r.Success? ==> r.value.filters == ReportFilters(start, end, Codes(RequestedCodes(tb.icds, ids)))
  {
    var found := RequestedCodes(tb.icds, ids);
    if !AllFound(found) then Failure(KeyNotFound)
    else
      var roots := Codes(found);
      match Run(tb, roots, Tally([], map[], ZeroCounters(roots)), Filter(inspections, InPeriod(start, end)))
      case Failure(f) => Failure(f)
      case Success(t) => Success(Report(ReportFilters(start, end, roots), t.summary, RecordsInOrder(t.order, t.records)))
  }

  /** The successful report in terms of the loop: the requested codes were
      all found and the loop over the visits of the period went through. */
  lemma ReportOfSuccess(inspections: seq<InspectionEntity>, tb: Tables, start: DateTime, end: DateTime,
                        ids: seq<Guid>)
    requires ReportOf(inspections, tb, start, end, ids).Success?
    ensures AllFound(RequestedCodes(tb.icds, ids))
    ensures var roots := Codes(RequestedCodes(tb.icds, ids));
      var run := Run(tb, roots, Tally([], map[], ZeroCounters(roots)), Filter(inspections, InPeriod(start, end)));
      && run.Success?
      && ReportOf(inspections, tb, start, end, ids).value.summaryByRoot == run.value.summary
      && ReportOf(inspections, tb, start, end, ids).value.records == RecordsInOrder(run.value.order, run.value.records)
  {
  }

  // ---------------------------------------------------------------------
  // The two counters agree

  /** The visits under root `c` summed over records, an absent key counting
      as 0. */
  function SumVisits(recs: seq<ReportRecord>, c: string): nat {
    if recs == [] then 0 else Get(recs[0].visitsByRoot, c) + SumVisits(recs[1..], c)
  }

  predicate NoDup(s: seq<Guid>) {
    forall a, b :: 0 <= a < b < |s| ==> s[a] != s[b]
  }

  /** The loop state is well formed: each patient met once, one record per
      patient met, and every root's summary is the sum of the records'
      counts for it. */
  ghost predicate Agrees(t: Tally) {
    && NoDup(t.order)
    && (forall id :: id in t.order <==> id in t.records)
    && (forall c :: Get(t.summary, c) == SumVisits(RecordsInOrder(t.order, t.records), c))
  }

  lemma {:induction false} RecordsInOrderAppend(a: seq<Guid>, b: seq<Guid>, records: map<Guid, ReportRecord>)
    ensures RecordsInOrder(a + b, records) == RecordsInOrder(a, records) + RecordsInOrder(b, records)
  {
    if a == [] {
      assert a + b == b;
    } else {
      assert (a + b)[0] == a[0] && (a + b)[1..] == a[1..] + b;
      RecordsInOrderAppend(a[1..], b, records);
    }
  }

  /** Changing the record of a patient not in `order` changes nothing. */
  lemma {:induction false} RecordsInOrderFrame(order: seq<Guid>, records: map<Guid, ReportRecord>, pid: Guid,
                                               x: ReportRecord)
    requires pid !in order
    ensures RecordsInOrder(order, records[pid := x]) == RecordsInOrder(order, records)
  {
    if order != [] {
      RecordsInOrderFrame(order[1..], records, pid, x);
    }
  }

  lemma {:induction false} SumVisitsAppend(a: seq<ReportRecord>, b: seq<ReportRecord>, c: string)
    ensures SumVisits(a + b, c) == SumVisits(a, c) + SumVisits(b, c)
  {
    if a == [] {
      assert a + b == b;
    } else {
      assert (a + b)[0] == a[0] && (a + b)[1..] == a[1..] + b;
      SumVisitsAppend(a[1..], b, c);
    }
  }

  /** Incrementing one patient's count for `code` adds one to the sum for
      `code` and leaves the sums for other roots alone. */
  lemma {:induction false} SumVisitsBump(order: seq<Guid>, records: map<Guid, ReportRecord>, pid: Guid,
                                         code: string, c: string)
    requires NoDup(order) && pid in order && pid in records
    ensures SumVisits(RecordsInOrder(order, records[pid := records[pid].(visitsByRoot :=
                                                  Bump(records[pid].visitsByRoot, code))]), c)
         == SumVisits(RecordsInOrder(order, records), c) + (if c == code then 1 else 0)
  {
    var x := records[pid].(visitsByRoot := Bump(records[pid].visitsByRoot, code));
    var records' := records[pid := x];
    assert NoDup(order[1..]) by {
      forall a, b | 0 <= a < b < |order[1..]| ensures order[1..][a] != order[1..][b] {
        assert order[1..][a] == order[a + 1] && order[1..][b] == order[b + 1];
      }
    }
    if order[0] == pid {
      assert pid !in order[1..] by {
        forall b | 0 <= b < |order[1..]| ensures order[1..][b] != pid {
          assert order[1..][b] == order[b + 1];
        }
      }
      RecordsInOrderFrame(order[1..], records, pid, x);
      assert RecordsInOrder(order, records') == [x] + RecordsInOrder(order[1..], records);
      assert RecordsInOrder(order, records) == [records[pid]] + RecordsInOrder(order[1..], records);
    } else {
      assert pid in order[1..];
      SumVisitsBump(order[1..], records, pid, code, c);
      var head := if order[0] in records then [records[order[0]]] else [];
      assert RecordsInOrder(order, records') == head + RecordsInOrder(order[1..], records');
      assert RecordsInOrder(order, records) == head + RecordsInOrder(order[1..], records);
      SumVisitsAppend(head, RecordsInOrder(order[1..], records'), c);
      SumVisitsAppend(head, RecordsInOrder(order[1..], records), c);
    }
  }

  /** A patient met for the first time adds a record with no visits. */
  lemma MeetAgrees(t: Tally, p: PatientEntity)
    requires Agrees(t) && (p.id in t.records || p.birthday.Some?)
    ensures Agrees(Meet(t, p))
  {
    if p.id !in t.records {
      var rec := ReportRecord(p.name, p.birthday.value, p.gender, map[]);
      var t1 := Meet(t, p);
      assert t1 == Tally(t.order + [p.id], t.records[p.id := rec], t.summary);
      assert p.id !in t.order;
      RecordsInOrderAppend(t.order, [p.id], t1.records);
      RecordsInOrderFrame(t.order, t.records, p.id, rec);
      assert RecordsInOrder([p.id], t1.records) == [rec];
      assert RecordsInOrder(t1.order, t1.records) == RecordsInOrder(t.order, t.records) + [rec];
      assert NoDup(t1.order) by {
        forall a, b | 0 <= a < b < |t1.order| ensures t1.order[a] != t1.order[b] {
          if b == |t.order| { assert t1.order[a] == t.order[a]; }
        }
      }
      forall c ensures Get(t1.summary, c) == SumVisits(RecordsInOrder(t1.order, t1.records), c) {
        SumVisitsAppend(RecordsInOrder(t.order, t.records), [rec], c);
      }
    }
  }

  /** A counted visit increments both counters by one. */
  lemma CountAgrees(t: Tally, pid: Guid, code: string)
    requires Agrees(t) && pid in t.records
    ensures Agrees(Count(t, pid, code))
  {
    var t1 := Count(t, pid, code);
    forall c ensures Get(t1.summary, c) == SumVisits(RecordsInOrder(t1.order, t1.records), c) {
      SumVisitsBump(t.order, t.records, pid, code, c);
    }
  }

  lemma StepAgrees(tb: Tables, roots: seq<string>, t: Tally, i: InspectionEntity)
    requires Agrees(t) && Step(tb, roots, t, i).Success?
    ensures Agrees(Step(tb, roots, t, i).value)
  {
    var p := InspectionRepository.PatientOf(tb.patients, i.patientId).value;
    MeetAgrees(t, p);
    var t1 := Meet(t, p);
    var icd := VisitIcd(tb, i).value;
    if icd.icdRootCode.Some? && icd.icdRootCode.value in roots {
      CountAgrees(t1, p.id, icd.icdRootCode.value);
    }
  }

  lemma {:induction false} RunAgrees(tb: Tables, roots: seq<string>, t: Tally, s: seq<InspectionEntity>)
    requires Agrees(t) && Run(tb, roots, t, s).Success?
    ensures Agrees(Run(tb, roots, t, s).value)
    decreases |s|
  {
    if s != [] {
      StepAgrees(tb, roots, t, s[0]);
      RunAgrees(tb, roots, Step(tb, roots, t, s[0]).value, s[1..]);
    }
  }

  /** For every root, `SummaryByRoot` equals the sum over the records of
      their `VisitsByRoot`, and `SummaryByRoot` has exactly the roots as
      keys. */
  lemma ReportCountersAgree(inspections: seq<InspectionEntity>, tb: Tables, start: DateTime, end: DateTime,
                            ids: seq<Guid>)
    requires ReportOf(inspections, tb, start, end, ids).Success?
    ensures var r := ReportOf(inspections, tb, start, end, ids).value;
      forall c :: Get(r.summaryByRoot, c) == SumVisits(r.records, c)
  {
    var roots := Codes(RequestedCodes(tb.icds, ids));
    var t0 := Tally([], map[], ZeroCounters(roots));
    ReportOfSuccess(inspections, tb, start, end, ids);
    RunAgrees(tb, roots, t0, Filter(inspections, InPeriod(start, end)));
  }

  // ---------------------------------------------------------------------
  // What the counters count

  /** The visit's first main diagnosis lies under root `c`. */
  function CountsUnder(tb: Tables, c: string): InspectionEntity -> bool {
    (i: InspectionEntity) => VisitIcd(tb, i).Some? && VisitIcd(tb, i).value.icdRootCode == Some(c)
  }

  lemma StepCounts(tb: Tables, roots: seq<string>, t: Tally, i: InspectionEntity, c: string)
    requires c in roots && Step(tb, roots, t, i).Success?
    ensures Get(Step(tb, roots, t, i).value.summary, c) == Get(t.summary, c) + (if CountsUnder(tb, c)(i) then 1 else 0)
  {
    var p := InspectionRepository.PatientOf(tb.patients, i.patientId).value;
    var t1 := Meet(t, p);
    assert Step(tb, roots, t, i) == Classify(tb, roots, t1, p.id, i);
    ClassifyKeepsKeys(tb, roots, t1, p.id, i);
    var icd := VisitIcd(tb, i).value;
    assert CountsUnder(tb, c)(i) <==> icd.icdRootCode == Some(c);
    if icd.icdRootCode.Some? && icd.icdRootCode.value in roots {
      assert Step(tb, roots, t, i) == Success(Count(t1, p.id, icd.icdRootCode.value));
    } else {
      assert Step(tb, roots, t, i) == Success(t1);
    }
  }

  lemma {:induction false} RunCounts(tb: Tables, roots: seq<string>, t: Tally, s: seq<InspectionEntity>, c: string)
    requires c in roots && Run(tb, roots, t, s).Success?
    ensures Get(Run(tb, roots, t, s).value.summary, c) == Get(t.summary, c) + CountIf(s, CountsUnder(tb, c))
    decreases |s|
  {
    if s != [] {
      StepCounts(tb, roots, t, s[0], c);
      RunCounts(tb, roots, Step(tb, roots, t, s[0]).value, s[1..], c);
    }
  }

  /** `SummaryByRoot[c]` is the number of visits of the period whose main
      diagnosis lies under root `c`. */
  lemma ReportCountsVisits(inspections: seq<InspectionEntity>, tb: Tables, start: DateTime, end: DateTime,
                           ids: seq<Guid>, c: string)
    requires ReportOf(inspections, tb, start, end, ids).Success?
    requires c in Codes(RequestedCodes(tb.icds, ids))
    ensures var r := ReportOf(inspections, tb, start, end, ids).value;
      c in r.summaryByRoot && r.summaryByRoot[c] == CountIf(Filter(inspections, InPeriod(start, end)), CountsUnder(tb, c))
  {
    var roots := Codes(RequestedCodes(tb.icds, ids));
    ReportOfSuccess(inspections, tb, start, end, ids);
    SummaryCounts(tb, roots, Filter(inspections, InPeriod(start, end)), c);
  }

  /** From zeroed counters, the loop's summary for root `c` is the number of
      visits under `c`. */
  lemma SummaryCounts(tb: Tables, roots: seq<string>, s: seq<InspectionEntity>, c: string)
    requires c in roots && Run(tb, roots, Tally([], map[], ZeroCounters(roots)), s).Success?
    ensures var t := Run(tb, roots, Tally([], map[], ZeroCounters(roots)), s).value;
      c in t.summary && t.summary[c] == CountIf(s, CountsUnder(tb, c))
  {
    var t0 := Tally([], map[], ZeroCounters(roots));
    RunCounts(tb, roots, t0, s, c);
    RunKeepsKeys(tb, roots, t0, s);
    assert Get(t0.summary, c) == 0;
  }

  lemma {:induction false} RunKeepsKeys(tb: Tables, roots: seq<string>, t: Tally, s: seq<InspectionEntity>)
    requires (forall c :: c in t.summary <==> c in roots) && Run(tb, roots, t, s).Success?
    ensures forall c :: c in Run(tb, roots, t, s).value.summary <==> c in roots
    decreases |s|
  {
    if s != [] {
      RunKeepsKeys(tb, roots, Step(tb, roots, t, s[0]).value, s[1..]);
    }
  }

  // ---------------------------------------------------------------------
  // What each patient's record holds

  /** Patient `pid`'s count for root `c` so far, 0 before they are met. */
  function Visits(t: Tally, pid: Guid, c: string): nat {
    if pid in t.records then Get(t.records[pid].visitsByRoot, c) else 0
  }

  /** The visit is one of patient `pid`'s and lies under root `c`. */
  function VisitUnder(tb: Tables, pid: Guid, c: string): InspectionEntity -> bool {
    (i: InspectionEntity) => i.patientId == Some(pid) && CountsUnder(tb, c)(i)
  }

  lemma MeetVisits(t: Tally, p: PatientEntity, pid: Guid, c: string)
    requires p.id in t.records || p.birthday.Some?
    ensures Visits(Meet(t, p), pid, c) == Visits(t, pid, c)
  {
  }

  lemma CountAddsVisit(t: Tally, q: Guid, code: string, pid: Guid, c: string)
    requires q in t.records
    ensures Visits(Count(t, q, code), pid, c) == Visits(t, pid, c) + (if pid == q && c == code then 1 else 0)
  {
  }

  lemma StepCountsFor(tb: Tables, roots: seq<string>, t: Tally, i: InspectionEntity, pid: Guid, c: string)
    requires c in roots && Step(tb, roots, t, i).Success?
    ensures Visits(Step(tb, roots, t, i).value, pid, c) == Visits(t, pid, c) + (if VisitUnder(tb, pid, c)(i) then 1 else 0)
  {
    var p := InspectionRepository.PatientOf(tb.patients, i.patientId).value;
    assert i.patientId == Some(p.id);
    var t1 := Meet(t, p);
    MeetVisits(t, p, pid, c);
    assert Step(tb, roots, t, i) == Classify(tb, roots, t1, p.id, i);
    ClassifyKeepsKeys(tb, roots, t1, p.id, i);
    var icd := VisitIcd(tb, i).value;
    var under := VisitUnder(tb, pid, c)(i);
    assert CountsUnder(tb, c)(i) <==> icd.icdRootCode == Some(c);
    assert under <==> pid == p.id && icd.icdRootCode == Some(c);
    if icd.icdRootCode.Some? && icd.icdRootCode.value in roots {
      var code := icd.icdRootCode.value;
      assert Step(tb, roots, t, i) == Success(Count(t1, p.id, code));
      CountAddsVisit(t1, p.id, code, pid, c);
    } else {
      assert Step(tb, roots, t, i) == Success(t1);
      assert !under;
    }
  }

  lemma {:induction false} RunCountsFor(tb: Tables, roots: seq<string>, t: Tally, s: seq<InspectionEntity>,
                                        pid: Guid, c: string)
    requires c in roots && Run(tb, roots, t, s).Success?
    ensures Visits(Run(tb, roots, t, s).value, pid, c) == Visits(t, pid, c) + CountIf(s, VisitUnder(tb, pid, c))
    decreases |s|
  {
    if s != [] {
      StepCountsFor(tb, roots, t, s[0], pid, c);
      RunCountsFor(tb, roots, Step(tb, roots, t, s[0]).value, s[1..], pid, c);
    }
  }

  /** `rec` shows the patient that `PatientOf` finds for `pid`: their name,
      birthday and gender. */
  ghost predicate RecordOf(tb: Tables, pid: Guid, rec: ReportRecord) {
    var p := InspectionRepository.PatientOf(tb.patients, Some(pid));
    && p.Some?
    && rec.patientName == p.value.name && p.value.birthday == Some(rec.patientBirthdate)
    && rec.gender == p.value.gender
  }

  /** Every record shows its patient, and holds only roots it has counted
      at least once. */
  ghost predicate Describes(tb: Tables, roots: seq<string>, t: Tally) {
    forall id :: id in t.records ==>
      && RecordOf(tb, id, t.records[id])
      && forall c :: c in t.records[id].visitsByRoot ==> c in roots && t.records[id].visitsByRoot[c] > 0
  }

  lemma MeetDescribes(tb: Tables, roots: seq<string>, t: Tally, p: PatientEntity)
    requires Describes(tb, roots, t) && (p.id in t.records || p.birthday.Some?)
    requires InspectionRepository.PatientOf(tb.patients, Some(p.id)) == Some(p)
    ensures Describes(tb, roots, Meet(t, p))
  {
    var t1 := Meet(t, p);
    forall id | id in t1.records
      ensures RecordOf(tb, id, t1.records[id])
      ensures forall c :: c in t1.records[id].visitsByRoot ==> c in roots && t1.records[id].visitsByRoot[c] > 0
    {
      if id !in t.records {
        assert id == p.id;
      }
    }
  }

  lemma CountDescribes(tb: Tables, roots: seq<string>, t: Tally, q: Guid, code: string)
    requires Describes(tb, roots, t) && q in t.records && code in roots
    ensures Describes(tb, roots, Count(t, q, code))
  {
    var t1 := Count(t, q, code);
    forall id | id in t1.records
      ensures RecordOf(tb, id, t1.records[id])
      ensures forall c :: c in t1.records[id].visitsByRoot ==> c in roots && t1.records[id].visitsByRoot[c] > 0
    {
      if id == q {
        forall c | c in t1.records[id].visitsByRoot ensures c in roots && t1.records[id].visitsByRoot[c] > 0 {
          assert Get(t1.records[id].visitsByRoot, c) > 0;
        }
      }
    }
  }

  lemma StepDescribes(tb: Tables, roots: seq<string>, t: Tally, i: InspectionEntity)
    requires Describes(tb, roots, t) && Step(tb, roots, t, i).Success?
    ensures Describes(tb, roots, Step(tb, roots, t, i).value)
  {
    var p := InspectionRepository.PatientOf(tb.patients, i.patientId).value;
    assert i.patientId == Some(p.id);
    var t1 := Meet(t, p);
    MeetDescribes(tb, roots, t, p);
    assert Step(tb, roots, t, i) == Classify(tb, roots, t1, p.id, i);
    ClassifyKeepsKeys(tb, roots, t1, p.id, i);
    var icd := VisitIcd(tb, i).value;
    if icd.icdRootCode.Some? && icd.icdRootCode.value in roots {
      CountDescribes(tb, roots, t1, p.id, icd.icdRootCode.value);
    }
  }

  lemma {:induction false} RunDescribes(tb: Tables, roots: seq<string>, t: Tally, s: seq<InspectionEntity>)
    requires Describes(tb, roots, t) && Run(tb, roots, t, s).Success?
    ensures Describes(tb, roots, Run(tb, roots, t, s).value)
    decreases |s|
  {
    if s != [] {
      StepDescribes(tb, roots, t, s[0]);
      RunDescribes(tb, roots, Step(tb, roots, t, s[0]).value, s[1..]);
    }
  }

  /** `rec` is patient `pid`'s record after visits `s`: it shows the
      patient, counts under each root exactly the patient's visits under it,
      and has an entry for exactly the roots counted at least once. */
  ghost predicate ShowsVisits(tb: Tables, roots: seq<string>, s: seq<InspectionEntity>, pid: Guid, rec: ReportRecord) {
    && RecordOf(tb, pid, rec)
    && (forall c :: c in roots ==> Get(rec.visitsByRoot, c) == CountIf(s, VisitUnder(tb, pid, c)))
    && (forall c :: c in rec.visitsByRoot <==> c in roots && CountIf(s, VisitUnder(tb, pid, c)) > 0)
  }

  /** From an empty tally, every patient's record shows their visits. */
  lemma RecordCounts(tb: Tables, roots: seq<string>, s: seq<InspectionEntity>, pid: Guid)
    requires Run(tb, roots, Tally([], map[], ZeroCounters(roots)), s).Success?
    requires pid in Run(tb, roots, Tally([], map[], ZeroCounters(roots)), s).value.records
    ensures ShowsVisits(tb, roots, s, pid, Run(tb, roots, Tally([], map[], ZeroCounters(roots)), s).value.records[pid])
  {
    var t0 := Tally([], map[], ZeroCounters(roots));
    var t := Run(tb, roots, t0, s).value;
    RunDescribes(tb, roots, t0, s);
    var rec := t.records[pid];
    forall c | c in roots ensures Get(rec.visitsByRoot, c) == CountIf(s, VisitUnder(tb, pid, c)) {
      RunCountsFor(tb, roots, t0, s, pid, c);
    }
  }

  /** The `k`-th record the loop lists belongs to a patient of one of the
      visits. */
  lemma RunRecordAt(tb: Tables, roots: seq<string>, s: seq<InspectionEntity>, k: int)
    requires Run(tb, roots, Tally([], map[], ZeroCounters(roots)), s).Success?
    requires var t := Run(tb, roots, Tally([], map[], ZeroCounters(roots)), s).value;
      0 <= k < |RecordsInOrder(t.order, t.records)|
    ensures var t := Run(tb, roots, Tally([], map[], ZeroCounters(roots)), s).value;
      exists pid :: pid in PatientIds(s) && ShowsVisits(tb, roots, s, pid, RecordsInOrder(t.order, t.records)[k])
  {
    var t0 := Tally([], map[], ZeroCounters(roots));
    RunAgrees(tb, roots, t0, s);
    RunMeets(tb, roots, t0, s);
    var t := Run(tb, roots, t0, s).value;
    var pid := t.order[k];
    assert RecordsInOrder(t.order, t.records)[k] == t.records[pid];
    RecordCounts(tb, roots, s, pid);
    assert pid in PatientIds(s);
  }

  /** Each record of a successful report belongs to the patient of some
      visit of the period: it shows that patient's name, birthday and
      gender; under each root it counts exactly that patient's visits of
      the period under the root; and it has an entry for exactly the roots
      counted at least once. */
  lemma ReportRecordsDescribePatients(inspections: seq<InspectionEntity>, tb: Tables, start: DateTime, end: DateTime,
                                      ids: seq<Guid>, k: int)
    requires ReportOf(inspections, tb, start, end, ids).Success?
    requires 0 <= k < |ReportOf(inspections, tb, start, end, ids).value.records|
    ensures var r := ReportOf(inspections, tb, start, end, ids).value;
      var s := Filter(inspections, InPeriod(start, end));
      exists pid :: pid in PatientIds(s) && ShowsVisits(tb, r.filters.icdRoots, s, pid, r.records[k])
  {
    var roots := Codes(RequestedCodes(tb.icds, ids));
    var s := Filter(inspections, InPeriod(start, end));
    ReportOfSuccess(inspections, tb, start, end, ids);
    RunRecordAt(tb, roots, s, k);
  }

  // ---------------------------------------------------------------------
  // When the loop fails, and whom it lists

  /** A visit the loop cannot get through: its patient is missing or has no
      birthday, or it has no main diagnosis with an existing ICD-10 record. */
  predicate Broken(tb: Tables, i: InspectionEntity) {
    var p := InspectionRepository.PatientOf(tb.patients, i.patientId);
    p.None? || p.value.birthday.None? || VisitIcd(tb, i).None?
  }

  /** Every patient with a record was found and has a birthday. */
  ghost predicate KnownHaveBirthdays(tb: Tables, t: Tally) {
    forall id :: id in t.records ==>
      InspectionRepository.PatientOf(tb.patients, Some(id)).Some?
      && InspectionRepository.PatientOf(tb.patients, Some(id)).value.birthday.Some?
  }

  lemma StepFails(tb: Tables, roots: seq<string>, t: Tally, i: InspectionEntity)
    requires KnownHaveBirthdays(tb, t)
    ensures Step(tb, roots, t, i).Failure? <==> Broken(tb, i)
    ensures Step(tb, roots, t, i).Success? ==> KnownHaveBirthdays(tb, Step(tb, roots, t, i).value)
  {
    var p := InspectionRepository.PatientOf(tb.patients, i.patientId);
    if p.Some? {
      assert i.patientId == Some(p.value.id);
      if p.value.id in t.records || p.value.birthday.Some? {
        MeetKeepsBirthdays(tb, t, p.value);
        var t1 := Meet(t, p.value);
        assert Step(tb, roots, t, i) == Classify(tb, roots, t1, p.value.id, i);
        ClassifyKeepsKeys(tb, roots, t1, p.value.id, i);
      }
    }
  }

  lemma MeetKeepsBirthdays(tb: Tables, t: Tally, p: PatientEntity)
    requires KnownHaveBirthdays(tb, t) && (p.id in t.records || p.birthday.Some?)
    requires InspectionRepository.PatientOf(tb.patients, Some(p.id)) == Some(p)
    ensures KnownHaveBirthdays(tb, Meet(t, p))
  {
    if p.id !in t.records {
      var t1 := Meet(t, p);
      forall id | id in t1.records
        ensures InspectionRepository.PatientOf(tb.patients, Some(id)).Some?
             && InspectionRepository.PatientOf(tb.patients, Some(id)).value.birthday.Some?
      {
        if id != p.id {
          assert id in t.records;
        }
      }
    }
  }

  lemma ClassifyKeepsKeys(tb: Tables, roots: seq<string>, t: Tally, pid: Guid, i: InspectionEntity)
    requires pid in t.records
    ensures Classify(tb, roots, t, pid, i).Failure? <==> VisitIcd(tb, i).None?
    ensures Classify(tb, roots, t, pid, i).Success? ==> Classify(tb, roots, t, pid, i).value.records.Keys == t.records.Keys
  {
  }

  lemma {:induction false} RunFails(tb: Tables, roots: seq<string>, t: Tally, s: seq<InspectionEntity>)
    requires KnownHaveBirthdays(tb, t)
    ensures Run(tb, roots, t, s).Failure? <==> exists i :: i in s && Broken(tb, i)
    decreases |s|
  {
    if s != [] {
      StepFails(tb, roots, t, s[0]);
      assert forall i :: i in s <==> i == s[0] || i in s[1..];
      if Step(tb, roots, t, s[0]).Success? {
        RunFails(tb, roots, Step(tb, roots, t, s[0]).value, s[1..]);
      }
    }
  }

  /** Once the roots are resolved, the report fails exactly when some visit
      of the period is broken. */
  lemma ReportFailsOnBrokenVisit(inspections: seq<InspectionEntity>, tb: Tables, start: DateTime, end: DateTime,
                                 ids: seq<Guid>)
    requires AllFound(RequestedCodes(tb.icds, ids))
    ensures ReportOf(inspections, tb, start, end, ids).Failure? <==>
      exists i :: i in inspections && InPeriod(start, end)(i) && Broken(tb, i)
    ensures ReportOf(inspections, tb, start, end, ids).Failure? ==>
      ReportOf(inspections, tb, start, end, ids).fault == NullReference
  {
    var roots := Codes(RequestedCodes(tb.icds, ids));
    RunFails(tb, roots, Tally([], map[], ZeroCounters(roots)), Filter(inspections, InPeriod(start, end)));
  }

  /** The ids of the patients of visits `s`. */
  function PatientIds(s: seq<InspectionEntity>): set<Guid> {
    set i | i in s && i.patientId.Some? :: i.patientId.value
  }

  lemma StepMeets(tb: Tables, roots: seq<string>, t: Tally, i: InspectionEntity)
    requires (forall id :: id in t.order <==> id in t.records) && Step(tb, roots, t, i).Success?
    ensures i.patientId.Some?
    ensures forall id :: id in Step(tb, roots, t, i).value.order <==> id in t.order || Some(id) == i.patientId
  {
    var p := InspectionRepository.PatientOf(tb.patients, i.patientId).value;
    StepOrder(tb, roots, t, i);
    MeetOrder(t, p);
  }

  /** A turn lists the patients its `Meet` lists. */
  lemma StepOrder(tb: Tables, roots: seq<string>, t: Tally, i: InspectionEntity)
    requires Step(tb, roots, t, i).Success?
    ensures var p := InspectionRepository.PatientOf(tb.patients, i.patientId);
      && p.Some? && i.patientId == Some(p.value.id) && (p.value.id in t.records || p.value.birthday.Some?)
      && Step(tb, roots, t, i).value.order == Meet(t, p.value).order
  {
    var p := InspectionRepository.PatientOf(tb.patients, i.patientId).value;
    var t1 := Meet(t, p);
    assert Step(tb, roots, t, i) == Classify(tb, roots, t1, p.id, i);
    ClassifyKeepsKeys(tb, roots, t1, p.id, i);
    var icd := VisitIcd(tb, i).value;
    if icd.icdRootCode.Some? && icd.icdRootCode.value in roots {
      assert Step(tb, roots, t, i).value == Count(t1, p.id, icd.icdRootCode.value);
    }
  }

  lemma MeetOrder(t: Tally, p: PatientEntity)
    requires (forall id :: id in t.order <==> id in t.records) && (p.id in t.records || p.birthday.Some?)
    ensures forall id :: id in Meet(t, p).order <==> id in t.order || id == p.id
  {
  }

  lemma {:induction false} RunMeets(tb: Tables, roots: seq<string>, t: Tally, s: seq<InspectionEntity>)
    requires Agrees(t) && Run(tb, roots, t, s).Success?
    ensures forall id :: id in Run(tb, roots, t, s).value.order <==> id in t.order || id in PatientIds(s)
    decreases |s|
  {
    if s != [] {
      StepMeets(tb, roots, t, s[0]);
      StepAgrees(tb, roots, t, s[0]);
      RunMeets(tb, roots, Step(tb, roots, t, s[0]).value, s[1..]);
      PatientIdsCons(s);
    }
  }

  lemma PatientIdsCons(s: seq<InspectionEntity>)
    requires s != [] && s[0].patientId.Some?
    ensures PatientIds(s) == PatientIds(s[1..]) + {s[0].patientId.value}
  {
    assert forall i :: i in s <==> i == s[0] || i in s[1..];
  }

  function Members(s: seq<Guid>): set<Guid> {
    set x | x in s
  }

  lemma {:induction false} DistinctCard(s: seq<Guid>)
    requires NoDup(s)
    ensures |Members(s)| == |s|
  {
    if s != [] {
      assert NoDup(s[1..]) by {
        forall a, b | 0 <= a < b < |s[1..]| ensures s[1..][a] != s[1..][b] {
          assert s[1..][a] == s[a + 1] && s[1..][b] == s[b + 1];
        }
      }
      DistinctCard(s[1..]);
      var all := Members(s);
      var rest := Members(s[1..]);
      assert all == rest + {s[0]};
      assert s[0] !in rest by {
        forall b | 0 <= b < |s[1..]| ensures s[1..][b] != s[0] {
          assert s[1..][b] == s[b + 1];
        }
      }
      assert |all| == |rest| + 1;
    }
  }

  /** Every patient of a visit of the period gets exactly one record,
      whether or not any of their visits counted. */
  lemma ReportOneRecordPerPatient(inspections: seq<InspectionEntity>, tb: Tables, start: DateTime, end: DateTime,
                                  ids: seq<Guid>)
    requires ReportOf(inspections, tb, start, end, ids).Success?
    ensures |ReportOf(inspections, tb, start, end, ids).value.records|
         == |PatientIds(Filter(inspections, InPeriod(start, end)))|
  {
    var roots := Codes(RequestedCodes(tb.icds, ids));
    var t0 := Tally([], map[], ZeroCounters(roots));
    var s := Filter(inspections, InPeriod(start, end));
    ReportOfSuccess(inspections, tb, start, end, ids);
    RunAgrees(tb, roots, t0, s);
    RunMeets(tb, roots, t0, s);
    var t := Run(tb, roots, t0, s).value;
    DistinctCard(t.order);
    assert Members(t.order) == PatientIds(s);
  }

  /** Sample data: the root `A00` with one child, a patient born at 100,
      and one visit of that patient at 3 whose main diagnosis is the child. */
  function SampleTables(): Tables {
    Tables([PatientEntity(5, 9, 0, "P", Some(100), Male)],
           [Icd10Entity(1, 0, "A", None, Some("A00"), Some("A00"), Some("Cholera")),
            Icd10Entity(2, 0, "A.1", Some("A"), Some("A00"), Some("A00.1"), Some("Classic cholera"))],
           [DiagnosisEntity(8, 0, None, None, Main, 2, 7)])
  }

  function SampleVisit(): InspectionEntity {
    InspectionEntity(7, 0, Some(3), None, None, None, None, None, None, None, None, Some(5), Some(9))
  }

  function SampleRecord(): ReportRecord {
    ReportRecord("P", 100, Male, map["A00" := 1])
  }

  lemma SampleRoots()
    ensures RequestedCodes(SampleTables().icds, []) == [Some("A00")]
  {
    var icds := SampleTables().icds;
    SampleParentless();
    var r := ParentlessCodes(icds);
    assert r == MapSeq([icds[0]], (i: Icd10Entity) => i.code);
    assert |r| == 1 && r[0] == Some("A00");
  }

  lemma SampleParentless()
    ensures Filter(SampleTables().icds, Parentless()) == [SampleTables().icds[0]]
  {
    var icds := SampleTables().icds;
    assert Filter(icds[1..], Parentless()) == [];
  }

  lemma SampleStep()
    ensures Step(SampleTables(), ["A00"], Tally([], map[], map["A00" := 0]), SampleVisit())
      == Success(Tally([5], map[5 := SampleRecord()], map["A00" := 1]))
  {
    var tb := SampleTables();
    var v := SampleVisit();
    assert InspectionRepository.PatientOf(tb.patients, v.patientId) == Some(tb.patients[0]);
    SampleVisitIcd();
    var m := Meet(Tally([], map[], map["A00" := 0]), tb.patients[0]);
    assert m == Tally([5], map[5 := ReportRecord("P", 100, Male, map[])], map["A00" := 0]);
    SampleCount();
    assert Classify(tb, ["A00"], m, 5, v) == Success(Count(m, 5, "A00"));
  }

  lemma SampleVisitIcd()
    ensures VisitIcd(SampleTables(), SampleVisit()) == Some(SampleTables().icds[1])
  {
    var tb := SampleTables();
    assert InspectionRepository.DiagnosesOf(tb.diagnoses, 7) == tb.diagnoses;
    assert First(tb.diagnoses, IsMain()) == Some(tb.diagnoses[0]);
    assert First(tb.icds, IcdWithId(2)) == Some(tb.icds[1]) by {
      assert First(tb.icds[1..], IcdWithId(2)) == Some(tb.icds[1]);
    }
  }

  lemma SampleCount()
    ensures Count(Tally([5], map[5 := ReportRecord("P", 100, Male, map[])], map["A00" := 0]), 5, "A00")
      == Tally([5], map[5 := SampleRecord()], map["A00" := 1])
  {
    assert Bump(map[], "A00") == map["A00" := 1];
    assert Bump(map["A00" := 0], "A00") == map["A00" := 1];
  }

  /** A period holding one visit whose main diagnosis lies under `A00`, with
      all roots requested: the summary is `{"A00": 1}` and the only record is
      that patient's, with `{"A00": 1}`. */
  lemma SingleVisitReport()
    ensures ReportOf([SampleVisit()], SampleTables(), 0, 10, [])
      == Success(Report(ReportFilters(0, 10, ["A00"]), map["A00" := 1], [SampleRecord()]))
  {
    var tb := SampleTables();
    SampleRoots();
    SampleRun();
    SampleCodes();
    assert Filter([SampleVisit()], InPeriod(0, 10)) == [SampleVisit()];
    var t := Tally([5], map[5 := SampleRecord()], map["A00" := 1]);
    ReportOfRun([SampleVisit()], tb, 0, 10, [], t);
  }

  /** The report once the roots are found and the loop has gone through. */
  lemma ReportOfRun(inspections: seq<InspectionEntity>, tb: Tables, start: DateTime, end: DateTime,
                    ids: seq<Guid>, t: Tally)
    requires AllFound(RequestedCodes(tb.icds, ids))
    requires var roots := Codes(RequestedCodes(tb.icds, ids));
      Run(tb, roots, Tally([], map[], ZeroCounters(roots)), Filter(inspections, InPeriod(start, end))) == Success(t)
    ensures ReportOf(inspections, tb, start, end, ids)
      == Success(Report(ReportFilters(start, end, Codes(RequestedCodes(tb.icds, ids))), t.summary,
                        RecordsInOrder(t.order, t.records)))
  {
  }

  lemma SampleCodes()
    ensures AllFound([Some("A00")]) && Codes([Some("A00")]) == ["A00"]
    ensures ZeroCounters(["A00"]) == map["A00" := 0]
    ensures RecordsInOrder([5], map[5 := SampleRecord()]) == [SampleRecord()]
  {
  }

  lemma SampleRun()
    ensures Run(SampleTables(), ["A00"], Tally([], map[], map["A00" := 0]), [SampleVisit()])
      == Success(Tally([5], map[5 := SampleRecord()], map["A00" := 1]))
  {
    SampleStep();
    assert [SampleVisit()][1..] == [];
  }

  // ---------------------------------------------------------------------
  // The method

  /** Lines 19-38 of `GetReport`: the requested codes, null where missing. */
  method FindRoots(icds: seq<Icd10Entity>, icdRoots: seq<Guid>) returns (found: seq<Option<string>>)
    ensures found == RequestedCodes(icds, icdRoots)
  {
    found := [];
    if |icdRoots| == 0 {
      found := ParentlessCodes(icds);
    } else {
      for k := 0 to |icdRoots|
        invariant |found| == k
        invariant forall j :: 0 <= j < k ==> found[j] == InspectionRepository.IcdCode(icds, icdRoots[j])
      {
        found := found + [InspectionRepository.IcdCode(icds, icdRoots[k])];
      }
    }
  }

  /** `summary[root] = 0` for every root, one root at a time. */
  method ZeroSummary(roots: seq<string>) returns (summary: map<string, nat>)
    ensures summary == ZeroCounters(roots)
  {
    summary := map[];
    for k := 0 to |roots|
      invariant summary == ZeroCounters(roots[..k])
    {
      assert roots[..k + 1] == roots[..k] + [roots[k]];
      summary := summary[roots[k] := 0];
    }
    assert roots[..|roots|] == roots;
  }

  /** `if (!m.ContainsKey(c)) m[c] = 0; m[c]++;` is `Bump`. */
  lemma InitThenIncrement(m: map<string, nat>, c: string)
    ensures var m1 := if c in m then m else m[c := 0];
      m1[c := m1[c] + 1] == Bump(m, c)
  {
  }

  /** Lines 85-99 of `GetReport`: find the visit's root code and count it. */
  method ClassifyVisit(db: Db, roots: seq<string>, order: seq<Guid>, records: map<Guid, ReportRecord>,
                       summary: map<string, nat>, patientId: Guid, inspection: InspectionEntity)
    returns (r: Result<Tally>)
    requires patientId in records
    requires forall c :: c in summary <==> c in roots
    ensures r == Classify(Tables(db.patients, db.icd10s, db.diagnoses), roots, Tally(order, records, summary),
                          patientId, inspection)
    ensures r.Success? ==> forall c :: c in r.value.summary <==> c in roots
  {
    var mainDiagnosis := First(InspectionRepository.DiagnosesOf(db.diagnoses, inspection.id), IsMain());
    if mainDiagnosis.None? {
      return Failure(NullReference);
    }
    var icd := First(db.icd10s, IcdWithId(mainDiagnosis.value.icd10Id));
    if icd.None? {
      return Failure(NullReference);
    }
    assert VisitIcd(Tables(db.patients, db.icd10s, db.diagnoses), inspection) == icd;
    var rootCode := icd.value.icdRootCode;
    if rootCode.Some? && rootCode.value in roots {
      var t := CountVisit(order, records, summary, patientId, rootCode.value);
      return Success(t);
    }
    return Success(Tally(order, records, summary));
  }

  /** Lines 91-97 of `GetReport`: the visit counts under `code` on the
      patient's record and in the summary. */
  method CountVisit(order: seq<Guid>, records: map<Guid, ReportRecord>, summary: map<string, nat>,
                    patientId: Guid, code: string)
    returns (t: Tally)
    requires patientId in records && code in summary
    ensures t == Count(Tally(order, records, summary), patientId, code)
  {
    var visits := records[patientId].visitsByRoot;
    InitThenIncrement(visits, code);
    if code !in visits {
      visits := visits[code := 0];
    }
    visits := visits[code := visits[code] + 1];
    var records' := records[patientId := records[patientId].(visitsByRoot := visits)];
    t := Tally(order, records', summary[code := summary[code] + 1]);
  }

  /** One turn of the loop (lines 73-99 of `GetReport`). */
  method Visit(db: Db, roots: seq<string>, order: seq<Guid>, records: map<Guid, ReportRecord>,
               summary: map<string, nat>, inspection: InspectionEntity)
    returns (r: Result<Tally>)
    requires forall c :: c in summary <==> c in roots
    ensures r == Step(Tables(db.patients, db.icd10s, db.diagnoses), roots, Tally(order, records, summary), inspection)
    ensures r.Success? ==> forall c :: c in r.value.summary <==> c in roots
  {
    var patient := InspectionRepository.PatientOf(db.patients, inspection.patientId);
    if patient.None? {
      return Failure(NullReference);
    }
    var patientId := patient.value.id;
    var order', records' := order, records;
    if patientId !in records' {
      if patient.value.birthday.None? {
        return Failure(NullReference);
      }
      records' := records'[patientId := ReportRecord(patient.value.name, patient.value.birthday.value,
                                                     patient.value.gender, map[])];
      order' := order' + [patientId];
    }
    r := ClassifyVisit(db, roots, order', records', summary, patientId, inspection);
  }

  /** One unfolding of `Run` from position `k`. */
  lemma RunStep(tb: Tables, roots: seq<string>, t: Tally, s: seq<InspectionEntity>, k: nat)
    requires k < |s|
    ensures Run(tb, roots, t, s[k..]) ==
      match Step(tb, roots, t, s[k])
      case Failure(f) => Failure(f)
      case Success(t1) => Run(tb, roots, t1, s[k + 1..])
  {
    assert s[k..][0] == s[k] && s[k..][1..] == s[k + 1..];
  }

  /** The loop over the visits of the period. */
  method CountVisits(db: Db, roots: seq<string>, summary0: map<string, nat>, inspections: seq<InspectionEntity>)
    returns (r: Result<Tally>)
    requires forall c :: c in summary0 <==> c in roots
    ensures r == Run(Tables(db.patients, db.icd10s, db.diagnoses), roots, Tally([], map[], summary0), inspections)
  {
    ghost var tb := Tables(db.patients, db.icd10s, db.diagnoses);
    var order: seq<Guid> := [];
    var records: map<Guid, ReportRecord> := map[];
    var summary := summary0;
    ghost var whole := Run(tb, roots, Tally(order, records, summary), inspections);
    var k := 0;
    assert inspections[0..] == inspections;
    while k < |inspections|
      invariant 0 <= k <= |inspections|
      invariant forall c :: c in summary <==> c in roots
      invariant whole == Run(tb, roots, Tally(order, records, summary), inspections[k..])
    {
      RunStep(tb, roots, Tally(order, records, summary), inspections, k);
      var next := Visit(db, roots, order, records, summary, inspections[k]);
      if next.Failure? {
        return Failure(next.fault);
      }
      order, records, summary := next.value.order, next.value.records, next.value.summary;
      k := k + 1;
    }
    assert inspections[k..] == [];
    r := Success(Tally(order, records, summary));
  }

  /** `GetReport(start, end, icdRoots)`. It writes nothing. */
  method GetReport(db: Db, start: DateTime, end: DateTime, icdRoots: seq<Guid>) returns (r: Result<Report>)
    ensures r == ReportOf(db.inspections, Tables(db.patients, db.icd10s, db.diagnoses), start, end, icdRoots)
  {
    var found := FindRoots(db.icd10s, icdRoots);
    if !AllFound(found) {
      return Failure(KeyNotFound);
    }
    var roots := Codes(found);
    var summary := ZeroSummary(roots);
    var inspections := Filter(db.inspections, InPeriod(start, end));
    var t := CountVisits(db, roots, summary, inspections);
    if t.Failure? {
      return Failure(t.fault);
    }
    r := Success(Report(ReportFilters(start, end, roots), t.value.summary,
                        RecordsInOrder(t.value.order, t.value.records)));
  }
}
