/** The patient repository: creating patients, filing inspections (visits)
    with their diagnoses and consultations, resolving the first visit of an
    inspection chain, and the filtered, sorted, paged patient list. */
module PatientRepository {
  import opened Common
  import opened Entities
  import opened Paging
  import opened Ordering
  import opened Store

  // ---------------------------------------------------------------------
  // Base-inspection resolution

  /** `Inspections.FindAsync(id)`: the row with that primary key. */
  function FindInspection(t: seq<InspectionEntity>, id: Guid): (r: Option<InspectionEntity>)
    ensures r.Some? ==> r.value in t && r.value.id == id
    ensures r.None? ==> forall i :: i in t ==> i.id != id
  {
    First(t, (i: InspectionEntity) => i.id == id)
  }

  /** An inspection whose `BaseInspectionId` is null or empty: the first visit
      of its chain. */
  predicate IsChainRoot(i: InspectionEntity) {
    i.baseInspectionId.None? || i.baseInspectionId.value == Empty
  }

  function Ids(t: seq<InspectionEntity>): set<Guid> {
    set i | i in t :: i.id
  }

  /** The recursion of `FindBaseInspectionId`, with the set of ids it has
      already been called on. The source recurses without such a set; when a
      call repeats an earlier one the source never returns, which is what
      `Failure(Diverges)` stands for. Any id it returns names an existing
      chain root. */
  function Walk(t: seq<InspectionEntity>, id: Option<Guid>, visited: set<Guid>): (r: Result<Option<Guid>>)
    ensures r.Failure? ==> r.fault == Diverges
    ensures r.Success? && r.value.Some? ==> exists i :: i in t && i.id == r.value.value && IsChainRoot(i)
    decreases Ids(t) - visited
  {
    if id.None? || id.value == Empty then Success(None)
    else match FindInspection(t, id.value)
      case None => Success(None)
      case Some(i) =>
        if IsChainRoot(i) then Success(Some(i.id))
        else if i.id in visited then Failure(Diverges)
        else
          assert i.id in Ids(t) - visited;
          Walk(t, i.baseInspectionId, visited + {i.id})
  }

  /** `FindBaseInspectionId(inspectionId)`. */
  function FindBaseInspectionId(t: seq<InspectionEntity>, id: Option<Guid>): (r: Result<Option<Guid>>)
    ensures id.None? || id.value == Empty ==> r == Success(None)
    ensures id.Some? && id.value != Empty && FindInspection(t, id.value).None? ==> r == Success(None)
    ensures (id.Some? && id.value != Empty && FindInspection(t, id.value).Some?
             && IsChainRoot(FindInspection(t, id.value).value)) ==> r == Success(id)
    ensures r.Success? && r.value.Some? ==> exists i :: i in t && i.id == r.value.value && IsChainRoot(i)
  {
    Walk(t, id, {})
  }

  /** Remembering fewer calls never changes a walk that returns. */
  lemma {:induction false} WalkForgetsVisited(t: seq<InspectionEntity>, id: Option<Guid>, v: set<Guid>, w: set<Guid>)
    requires w <= v && Walk(t, id, v).Success?
    ensures Walk(t, id, w) == Walk(t, id, v)
    decreases Ids(t) - v
  {
    if id.Some? && id.value != Empty {
      match FindInspection(t, id.value)
      case None =>
      case Some(i) =>
        if !IsChainRoot(i) {
          assert i.id in Ids(t) - v;
          WalkForgetsVisited(t, i.baseInspectionId, v + {i.id}, w + {i.id});
        }
    }
  }

  /** A referenced inspection that is not a chain root resolves to whatever
      its own `BaseInspectionId` resolves to. */
  lemma FindBaseFollowsLink(t: seq<InspectionEntity>, id: Guid, i: InspectionEntity)
    requires id != Empty && FindInspection(t, id) == Some(i) && !IsChainRoot(i)
    requires FindBaseInspectionId(t, Some(id)).Success?
    ensures FindBaseInspectionId(t, Some(id)) == FindBaseInspectionId(t, i.baseInspectionId)
  {
    assert {} + {i.id} == {i.id};
    assert Walk(t, Some(id), {}) == Walk(t, i.baseInspectionId, {i.id});
    WalkForgetsVisited(t, i.baseInspectionId, {i.id}, {});
  }

  /** Inspection ids are primary keys. */
  ghost predicate UniqueIds(t: seq<InspectionEntity>) {
    forall j, k :: 0 <= j < k < |t| ==> t[j].id != t[k].id
  }

  /** Every base link names an inspection stored before the one holding it:
      base links are acyclic. */
  ghost predicate LinksBackward(t: seq<InspectionEntity>) {
    && UniqueIds(t)
    && forall k :: 0 <= k < |t| && !IsChainRoot(t[k]) ==>
         exists j :: 0 <= j < k && t[j].id == t[k].baseInspectionId.value
  }

  /** The invariant inspection creation keeps: base links go backward and
      name chain roots. */
  ghost predicate WellLinked(t: seq<InspectionEntity>) {
    && UniqueIds(t)
    && forall k :: 0 <= k < |t| && !IsChainRoot(t[k]) ==>
         exists j :: 0 <= j < k && t[j].id == t[k].baseInspectionId.value && IsChainRoot(t[j])
  }

  lemma FindAtIndex(t: seq<InspectionEntity>, k: int)
    requires UniqueIds(t) && 0 <= k < |t|
    ensures FindInspection(t, t[k].id) == Some(t[k])
  {
    var r := FindInspection(t, t[k].id);
    var m :| 0 <= m < |t| && t[m] == r.value;
    assert t[m].id == t[k].id;
  }

  lemma {:induction false} WalkTerminates(t: seq<InspectionEntity>, k: int, v: set<Guid>)
    requires LinksBackward(t) && 0 <= k < |t|
    requires forall x :: x in v ==> exists m :: k < m < |t| && t[m].id == x
    ensures Walk(t, Some(t[k].id), v).Success?
    decreases k
  {
    if t[k].id != Empty {
      FindAtIndex(t, k);
      if !IsChainRoot(t[k]) {
        var j :| 0 <= j < k && t[j].id == t[k].baseInspectionId.value;
        assert forall m :: k < m < |t| ==> t[m].id != t[k].id;
        assert t[k].id !in v;
        var v' := v + {t[k].id};
        forall x | x in v' ensures exists m :: j < m < |t| && t[m].id == x {
          if x == t[k].id {
            assert j < k;
          } else {
            var m :| k < m < |t| && t[m].id == x;
          }
        }
        WalkTerminates(t, j, v');
        assert t[k].baseInspectionId == Some(t[j].id);
      }
    }
  }

  /** With acyclic base links the resolution always returns. */
  lemma FindBaseTerminates(t: seq<InspectionEntity>, id: Option<Guid>)
    requires LinksBackward(t)
    ensures FindBaseInspectionId(t, id).Success?
  {
    if id.Some? && id.value != Empty && FindInspection(t, id.value).Some? {
      var i := FindInspection(t, id.value).value;
      var k :| 0 <= k < |t| && t[k] == i;
      WalkTerminates(t, k, {});
    }
  }

  /** The walk through a chain A -> B -> C: in a well-linked table, a visit
      that follows up on `t[p]` gets `t[p]` itself as its base when `t[p]`
      starts its chain, and `t[p]`'s base otherwise. */
  lemma BaseOfFollowUp(t: seq<InspectionEntity>, p: int)
    requires WellLinked(t) && 0 <= p < |t| && t[p].id != Empty
    ensures FindBaseInspectionId(t, Some(t[p].id)) ==
      Success(Some(if IsChainRoot(t[p]) then t[p].id else t[p].baseInspectionId.value))
  {
    if IsChainRoot(t[p]) {
      WalkAtRoot(t, p, {});
    } else {
      var j :| 0 <= j < p && t[j].id == t[p].baseInspectionId.value && IsChainRoot(t[j]);
      WalkAtLink(t, p, {});
      assert {} + {t[p].id} == {t[p].id};
      assert t[p].baseInspectionId == Some(t[j].id);
      WalkAtRoot(t, j, {t[p].id});
    }
  }

  /** A walk that reaches a stored chain root returns its id. */
  lemma WalkAtRoot(t: seq<InspectionEntity>, k: int, v: set<Guid>)
    requires UniqueIds(t) && 0 <= k < |t| && t[k].id != Empty && IsChainRoot(t[k])
    ensures Walk(t, Some(t[k].id), v) == Success(Some(t[k].id))
  {
    FindAtIndex(t, k);
  }

  /** A walk that reaches a stored follow-up, not yet visited, moves on to
      its base. */
  lemma WalkAtLink(t: seq<InspectionEntity>, k: int, v: set<Guid>)
    requires UniqueIds(t) && 0 <= k < |t| && t[k].id != Empty && !IsChainRoot(t[k]) && t[k].id !in v
    ensures Walk(t, Some(t[k].id), v) == Walk(t, t[k].baseInspectionId, v + {t[k].id})
  {
    FindAtIndex(t, k);
  }

  /** Storing a new inspection whose base was resolved by
      `FindBaseInspectionId` keeps the table well linked. */
  lemma AppendKeepsWellLinked(t: seq<InspectionEntity>, row: InspectionEntity)
    requires WellLinked(t) && row.id !in Ids(t)
    requires FindBaseInspectionId(t, row.previousInspectionId) == Success(row.baseInspectionId)
    ensures WellLinked(t + [row])
  {
    var u := t + [row];
    forall j, k | 0 <= j < k < |u| ensures u[j].id != u[k].id {
      if k == |t| { assert u[j] in t; }
    }
    forall k | 0 <= k < |u| && !IsChainRoot(u[k])
      ensures exists j :: 0 <= j < k && u[j].id == u[k].baseInspectionId.value && IsChainRoot(u[j])
    {
      if k < |t| {
        var j :| 0 <= j < k && t[j].id == t[k].baseInspectionId.value && IsChainRoot(t[j]);
        assert u[j] == t[j];
      } else {
        var i :| i in t && i.id == row.baseInspectionId.value && IsChainRoot(i);
        var j :| 0 <= j < |t| && t[j] == i;
        assert u[j] == t[j];
      }
    }
  }

  // ---------------------------------------------------------------------
  // Inspection creation

  datatype DiagnosisCreateModel = DiagnosisCreateModel(
    icdDiagnosisId: Guid,
    description: Option<string>,
    diagnosisType: DiagnosisType)

  /** A requested consultation with the content of its first comment. */
  datatype ConsultationCreateModel = ConsultationCreateModel(specialityId: Guid, commentContent: string)

  datatype InspectionCreateModel = InspectionCreateModel(
    date: DateTime,
    anamnesis: string,
    complaints: string,
    treatment: string,
    conclusion: Conclusion,
    nextVisitDate: Option<DateTime>,
    deathDate: Option<DateTime>,
    previousInspectionId: Option<Guid>,
    diagnoses: seq<DiagnosisCreateModel>,
    consultations: Option<seq<ConsultationCreateModel>>)

  /** The requested consultations; a null list requests none. */
  function RequestedConsultations(m: InspectionCreateModel): seq<ConsultationCreateModel> {
    if m.consultations.None? then [] else m.consultations.value
  }

  /** `Icd10s.FindAsync(id)`. */
  function FindIcd(icds: seq<Icd10Entity>, id: Guid): (r: Option<Icd10Entity>)
    ensures r.Some? ==> r.value in icds && r.value.id == id
    ensures r.None? ==> forall x :: x in icds ==> x.id != id
  {
    First(icds, (x: Icd10Entity) => x.id == id)
  }

  /** The row of requested diagnosis `m`, named after its ICD record. */
  function DiagnosisRow(m: DiagnosisCreateModel, icd: Icd10Entity, id: Guid, now: DateTime,
                        inspectionId: Guid): DiagnosisEntity
  {
    DiagnosisEntity(id, now, icd.name, m.description, m.diagnosisType, m.icdDiagnosisId, inspectionId)
  }

  /** The diagnosis rows of a new inspection, one per requested diagnosis and
      in the same order, named after the ICD record they reference; reading
      the name of a record that does not exist is a null dereference. */
  function NewDiagnoses(icds: seq<Icd10Entity>, ds: seq<DiagnosisCreateModel>, ids: seq<Guid>,
                        now: DateTime, inspectionId: Guid): (r: Result<seq<DiagnosisEntity>>)
    requires |ids| == |ds|
    ensures r.Failure? ==> r.fault == NullReference
    ensures r.Success? ==> |r.value| == |ds|
  {
    Traverse(Zip(ds, ids), RowOf(icds, now, inspectionId))
  }

  /** Each request with the id its row gets. */
  function Zip(ds: seq<DiagnosisCreateModel>, ids: seq<Guid>): (r: seq<(DiagnosisCreateModel, Guid)>)
    requires |ids| == |ds|
    ensures |r| == |ds|
  {
    if ds == [] then [] else [(ds[0], ids[0])] + Zip(ds[1..], ids[1..])
  }

  lemma {:induction false} ZipAt(ds: seq<DiagnosisCreateModel>, ids: seq<Guid>, j: int)
    requires |ids| == |ds| && 0 <= j < |ds|
    ensures Zip(ds, ids)[j] == (ds[j], ids[j])
  {
    if j > 0 {
      ZipAt(ds[1..], ids[1..], j - 1);
    }
  }

  /** The row of one request, or a null dereference when its ICD record is
      missing. */
  function RowOf(icds: seq<Icd10Entity>, now: DateTime, inspectionId: Guid)
    : ((DiagnosisCreateModel, Guid)) -> Result<DiagnosisEntity>
  {
    (q: (DiagnosisCreateModel, Guid)) =>
      match FindIcd(icds, q.0.icdDiagnosisId)
      case None => Failure(NullReference)
      case Some(icd) => Success(DiagnosisRow(q.0, icd, q.1, now, inspectionId))
  }

  lemma RowOfRequest(icds: seq<Icd10Entity>, now: DateTime, inspectionId: Guid, m: DiagnosisCreateModel, id: Guid)
    ensures var icd := FindIcd(icds, m.icdDiagnosisId);
      RowOf(icds, now, inspectionId)((m, id))
        == if icd.None? then Failure(NullReference) else Success(DiagnosisRow(m, icd.value, id, now, inspectionId))
  {
  }

  /** Building the rows fails exactly when some requested diagnosis names a
      missing ICD record; otherwise row `j` is built from request `j`, id
      `j` and the record it names. */
  lemma NewDiagnosesElementwise(icds: seq<Icd10Entity>, ds: seq<DiagnosisCreateModel>,
                                ids: seq<Guid>, now: DateTime, inspectionId: Guid)
    requires |ids| == |ds|
    ensures var r := NewDiagnoses(icds, ds, ids, now, inspectionId);
      && (r.Failure? <==> exists j :: 0 <= j < |ds| && FindIcd(icds, ds[j].icdDiagnosisId).None?)
      && (r.Success? ==> forall j :: 0 <= j < |ds| ==>
            r.value[j] == DiagnosisRow(ds[j], FindIcd(icds, ds[j].icdDiagnosisId).value, ids[j], now, inspectionId))
  {
    var f := RowOf(icds, now, inspectionId);
    var z := Zip(ds, ids);
    TraverseElementwise(z, f);
    forall j | 0 <= j < |ds|
      ensures f(z[j]) == if FindIcd(icds, ds[j].icdDiagnosisId).None? then Failure(NullReference)
                         else Success(DiagnosisRow(ds[j], FindIcd(icds, ds[j].icdDiagnosisId).value, ids[j], now, inspectionId))
    {
      ZipAt(ds, ids, j);
      RowOfRequest(icds, now, inspectionId, ds[j], ids[j]);
    }
  }

  /** The consultation rows of a new inspection. */
  function NewConsultations(cs: seq<ConsultationCreateModel>, cids: seq<Guid>, now: DateTime,
                            inspectionId: Guid): (r: seq<ConsultationEntity>)
    requires |cids| == |cs|
    ensures |r| == |cs|
  {
    seq(|cs|, j requires 0 <= j < |cs| => ConsultationEntity(cids[j], now, inspectionId, cs[j].specialityId))
  }

  /** The first comment of each new consultation: written by the creating
      doctor, attached to that consultation, with no parent. */
  function SeedComments(cs: seq<ConsultationCreateModel>, cids: seq<Guid>, mids: seq<Guid>,
                        now: DateTime, doctorId: Guid): (r: seq<CommentEntity>)
    requires |cids| == |cs| == |mids|
    ensures |r| == |cs|
  {
    seq(|cs|, j requires 0 <= j < |cs| =>
      CommentEntity(mids[j], now, None, cs[j].commentContent, doctorId, None, cids[j]))
  }

  lemma {:induction false} CountNone<T(!new)>(s: seq<T>, p: T -> bool)
    requires forall k :: 0 <= k < |s| ==> !p(s[k])
    ensures CountIf(s, p) == 0
  {
    if s != [] {
      CountNone(s[1..], p);
    }
  }

  lemma {:induction false} CountOne<T(!new)>(s: seq<T>, p: T -> bool, j: int)
    requires 0 <= j < |s| && p(s[j])
    requires forall k :: 0 <= k < |s| && k != j ==> !p(s[k])
    ensures CountIf(s, p) == 1
  {
    if j == 0 {
      CountNone(s[1..], p);
    } else {
      CountOne(s[1..], p, j - 1);
    }
  }

  /** Each new consultation has exactly one comment in the comment table,
      and it is that consultation's root comment: provided the consultation
      ids are fresh, no two requested consultations get the same id, and no
      stored comment already refers to one of them. */
  lemma SeededCommentIsUnique(comments: seq<CommentEntity>, cs: seq<ConsultationCreateModel>,
                              cids: seq<Guid>, mids: seq<Guid>, now: DateTime, doctorId: Guid, j: int)
    requires |cids| == |cs| == |mids| && 0 <= j < |cs|
    requires forall a, b :: 0 <= a < b < |cids| ==> cids[a] != cids[b]
    requires forall c :: c in comments ==> c.consultationId !in cids
    ensures var all := comments + SeedComments(cs, cids, mids, now, doctorId);
      && CountIf(all, InThread(cids[j])) == 1
      && First(all, IsThreadRoot(cids[j])) == Some(SeedComments(cs, cids, mids, now, doctorId)[j])
  {
    var seed := SeedComments(cs, cids, mids, now, doctorId);
    var all := comments + seed;
    OnlySeedInThread(comments, cs, cids, mids, now, doctorId, j);
    CountOne(all, InThread(cids[j]), |comments| + j);
    var q := IsThreadRoot(cids[j]);
    assert all[|comments| + j] == seed[j];
    assert q(all[|comments| + j]);
    FirstAt(all, q, |comments| + j);
  }

  /** Among the stored and seeded comments, the seeded comment of `cids[j]` is
      the only one in that consultation's thread. */
  lemma OnlySeedInThread(comments: seq<CommentEntity>, cs: seq<ConsultationCreateModel>,
                         cids: seq<Guid>, mids: seq<Guid>, now: DateTime, doctorId: Guid, j: int)
    requires |cids| == |cs| == |mids| && 0 <= j < |cs|
    requires forall a, b :: 0 <= a < b < |cids| ==> cids[a] != cids[b]
    requires forall c :: c in comments ==> c.consultationId !in cids
    ensures var all := comments + SeedComments(cs, cids, mids, now, doctorId);
      && InThread(cids[j])(all[|comments| + j])
      && forall k :: 0 <= k < |all| && k != |comments| + j ==> all[k].consultationId != cids[j]
  {
    var seed := SeedComments(cs, cids, mids, now, doctorId);
    var all := comments + seed;
    forall k | 0 <= k < |all| && k != |comments| + j ensures all[k].consultationId != cids[j] {
      if k < |comments| {
        assert all[k] in comments;
      } else {
        assert all[k] == seed[k - |comments|];
      }
    }
  }

  /** The inspection row `CreateInspection` stores: the fields of the model,
      the resolved base, and links to the patient and the doctor, each null
      when no such row exists. */
  function NewInspection(m: InspectionCreateModel, base: Option<Guid>, id: Guid, now: DateTime,
                         patients: seq<PatientEntity>, doctors: seq<DoctorEntity>,
                         patientId: Guid, doctorId: Guid): InspectionEntity
  {
    InspectionEntity(
      id, now, Some(m.date), Some(m.anamnesis), Some(m.complaints), Some(m.treatment),
      Some(m.conclusion), m.nextVisitDate, m.deathDate, base, m.previousInspectionId,
      if First(patients, (p: PatientEntity) => p.id == patientId).Some? then Some(patientId) else None,
      if First(doctors, (d: DoctorEntity) => d.id == doctorId).Some? then Some(doctorId) else None)
  }

  /** The loop over the requested diagnoses. */
  method BuildDiagnoses(icds: seq<Icd10Entity>, ds: seq<DiagnosisCreateModel>, ids: seq<Guid>,
                        now: DateTime, inspectionId: Guid)
    returns (r: Result<seq<DiagnosisEntity>>)
    requires |ids| == |ds|
    ensures r == NewDiagnoses(icds, ds, ids, now, inspectionId)
  {
    ghost var row := RowOf(icds, now, inspectionId);
    var requests := Zip(ds, ids);
    ghost var whole := Traverse(requests, row);
    var diagnoses: seq<DiagnosisEntity> := [];
    var k := 0;
    TraverseFrom(requests, row, 0, []);
    while k < |requests|
      invariant 0 <= k <= |requests|
      invariant whole == Prepend(diagnoses, Traverse(requests[k..], row))
    {
      TraverseStep(requests, row, k, diagnoses);
      var d := BuildRow(icds, requests[k], now, inspectionId);
      if d.Failure? {
        return Failure(d.fault);
      }
      diagnoses := diagnoses + [d.value];
      k := k + 1;
    }
    TraverseFrom(requests, row, |requests|, diagnoses);
    r := Success(diagnoses);
  }

  /** The body of the loop over the requested diagnoses. */
  method BuildRow(icds: seq<Icd10Entity>, q: (DiagnosisCreateModel, Guid), now: DateTime, inspectionId: Guid)
    returns (r: Result<DiagnosisEntity>)
    ensures r == RowOf(icds, now, inspectionId)(q)
    ensures r.Failure? <==> FindIcd(icds, q.0.icdDiagnosisId).None?
  {
    var icd := FindIcd(icds, q.0.icdDiagnosisId);
    if icd.None? {
      return Failure(NullReference);
    }
    r := Success(DiagnosisRow(q.0, icd.value, q.1, now, inspectionId));
  }

  /** The loop over the requested consultations: one consultation and its
      first comment per request. */
  method BuildConsultations(cs: seq<ConsultationCreateModel>, cids: seq<Guid>, mids: seq<Guid>,
                            now: DateTime, inspectionId: Guid, doctorId: Guid)
    returns (consultations: seq<ConsultationEntity>, comments: seq<CommentEntity>)
    requires |cids| == |cs| == |mids|
    ensures consultations == NewConsultations(cs, cids, now, inspectionId)
    ensures comments == SeedComments(cs, cids, mids, now, doctorId)
  {
    consultations, comments := [], [];
    var k := 0;
    while k < |cs|
      invariant 0 <= k <= |cs| && |consultations| == k && |comments| == k
      invariant forall j :: 0 <= j < k ==>
        consultations[j] == ConsultationEntity(cids[j], now, inspectionId, cs[j].specialityId)
      invariant forall j :: 0 <= j < k ==>
        comments[j] == CommentEntity(mids[j], now, None, cs[j].commentContent, doctorId, None, cids[j])
    {
      var consultation := ConsultationEntity(cids[k], now, inspectionId, cs[k].specialityId);
      var comment := CommentEntity(mids[k], now, None, cs[k].commentContent, doctorId, None, consultation.id);
      consultations := consultations + [consultation];
      comments := comments + [comment];
      k := k + 1;
    }
  }

  /** `CreateInspection`. It resolves the base inspection of the stated
      previous inspection, builds the inspection with one diagnosis per
      requested diagnosis and one consultation, seeded with one comment by
      `doctorId`, per requested consultation, and stores them together.
      `Guid.NewGuid()` and `DateTime.UtcNow` are the parameters `inspectionId`,
      `diagnosisIds`, `consultationIds`, `commentIds` and `now`. No business
      rule is checked here. Nothing is stored when the base resolution never
      returns or a diagnosis names a missing ICD record. */
  method CreateInspection(db: Db, m: InspectionCreateModel, doctorId: Guid, patientId: Guid, now: DateTime,
                          inspectionId: Guid, diagnosisIds: seq<Guid>, consultationIds: seq<Guid>,
                          commentIds: seq<Guid>)
    returns (r: Result<Guid>)
    requires |diagnosisIds| == |m.diagnoses|
    requires |consultationIds| == |RequestedConsultations(m)| == |commentIds|
    modifies db
    ensures r.Failure? ==> unchanged(db)
    ensures FindBaseInspectionId(old(db.inspections), m.previousInspectionId).Failure? ==> r == Failure(Diverges)
    ensures FindBaseInspectionId(old(db.inspections), m.previousInspectionId).Success? ==>
      (r.Failure? <==> NewDiagnoses(old(db.icd10s), m.diagnoses, diagnosisIds, now, inspectionId).Failure?)
    ensures && FindBaseInspectionId(old(db.inspections), m.previousInspectionId).Success?
            && NewDiagnoses(old(db.icd10s), m.diagnoses, diagnosisIds, now, inspectionId).Failure?
            ==> r == Failure(NullReference)
    ensures r.Success? ==>
      var cs := RequestedConsultations(m);
      && r.value == inspectionId
      && db.inspections == old(db.inspections) + [NewInspection(
           m, FindBaseInspectionId(old(db.inspections), m.previousInspectionId).value, inspectionId, now,
           old(db.patients), old(db.doctors), patientId, doctorId)]
      && db.diagnoses == old(db.diagnoses) + NewDiagnoses(old(db.icd10s), m.diagnoses, diagnosisIds, now, inspectionId).value
      && db.consultations == old(db.consultations) + NewConsultations(cs, consultationIds, now, inspectionId)
      && db.comments == old(db.comments) + SeedComments(cs, consultationIds, commentIds, now, doctorId)
      && db.patients == old(db.patients) && db.doctors == old(db.doctors)
      && db.specialities == old(db.specialities) && db.icd10s == old(db.icd10s)
      && db.notificationLogs == old(db.notificationLogs)
  {
    var baseId := FindBaseInspectionId(db.inspections, m.previousInspectionId);
    if baseId.Failure? {
      return Failure(Diverges);
    }
    var row := NewInspection(m, baseId.value, inspectionId, now, db.patients, db.doctors, patientId, doctorId);
    var diagnoses := BuildDiagnoses(db.icd10s, m.diagnoses, diagnosisIds, now, inspectionId);
    if diagnoses.Failure? {
      return Failure(diagnoses.fault);
    }
    var consultations, comments :=
      BuildConsultations(RequestedConsultations(m), consultationIds, commentIds, now, inspectionId, doctorId);
    StoreInspection(db, row, diagnoses.value, consultations, comments);
    r := Success(inspectionId);
  }

  /** `AddAsync` of the new rows followed by `SaveChangesAsync`. */
  method StoreInspection(db: Db, row: InspectionEntity, diagnoses: seq<DiagnosisEntity>,
                         consultations: seq<ConsultationEntity>, comments: seq<CommentEntity>)
    modifies db
    ensures db.inspections == old(db.inspections) + [row]
    ensures db.diagnoses == old(db.diagnoses) + diagnoses
    ensures db.consultations == old(db.consultations) + consultations
    ensures db.comments == old(db.comments) + comments
    ensures db.patients == old(db.patients) && db.doctors == old(db.doctors)
    ensures db.specialities == old(db.specialities) && db.icd10s == old(db.icd10s)
    ensures db.notificationLogs == old(db.notificationLogs)
  {
    db.inspections := db.inspections + [row];
    db.diagnoses := db.diagnoses + diagnoses;
    db.consultations := db.consultations + consultations;
    db.comments := db.comments + comments;
  }

  // ---------------------------------------------------------------------
  // Patients

  datatype PatientCreateModel = PatientCreateModel(name: string, birthday: Option<DateTime>, gender: Gender)

  /** `CreatePatient`: stores one patient registered by `doctorId`. The
      entity is built with `new Guid()`, the empty Guid, which the database
      context replaces by a generated key when it adds the row; that key and
      `DateTime.UtcNow` are the parameters `newId` and `now`. */
  method CreatePatient(db: Db, m: PatientCreateModel, doctorId: Guid, now: DateTime, newId: Guid)
    returns (id: Guid)
    modifies db
    ensures id == newId
    ensures db.patients == old(db.patients) + [PatientEntity(newId, doctorId, now, m.name, m.birthday, m.gender)]
    ensures db.doctors == old(db.doctors) && db.inspections == old(db.inspections)
    ensures db.specialities == old(db.specialities) && db.icd10s == old(db.icd10s)
    ensures db.diagnoses == old(db.diagnoses) && db.consultations == old(db.consultations)
    ensures db.comments == old(db.comments) && db.notificationLogs == old(db.notificationLogs)
  {
    db.patients := db.patients + [PatientEntity(newId, doctorId, now, m.name, m.birthday, m.gender)];
    id := newId;
  }

  datatype PatientSorting = NameAsc | NameDesc | CreateAsc | CreateDesc | InspectionAsc | InspectionDesc

  /** The filters of the patient list. */
  datatype PatientFilter = PatientFilter(
    name: string,
    conclusions: Option<seq<Conclusion>>,
    scheduledVisits: bool,
    onlyMine: bool,
    doctorId: Guid)

  /** The patient has an inspection with a next visit later than `now`. */
  predicate HasScheduledVisit(ins: seq<InspectionEntity>, pid: Guid, now: DateTime) {
    exists i :: i in ins && i.patientId == Some(pid) && i.nextVisitDate.Some? && i.nextVisitDate.value > now
  }

  /** The patient has an inspection whose conclusion is one of `cs`. */
  predicate HasConclusionIn(ins: seq<InspectionEntity>, pid: Guid, cs: seq<Conclusion>) {
    exists i :: i in ins && i.patientId == Some(pid) && i.conclusion.Some? && i.conclusion.value in cs
  }

  /** A patient passes the filters of `GetPatientsList`: the name contains the
      requested name ignoring case; with `onlyMine`, the patient belongs to the
      doctor; with `scheduledVisits`, a visit is scheduled; with a non-empty
      list of conclusions, one of the patient's visits concluded so. */
  predicate Listed(p: PatientEntity, ins: seq<InspectionEntity>, f: PatientFilter, now: DateTime) {
    && Contains(Lower(p.name), Lower(f.name))
    && (f.onlyMine ==> p.doctorId == f.doctorId)
    && (f.scheduledVisits ==> HasScheduledVisit(ins, p.id, now))
    && (f.conclusions.Some? && |f.conclusions.value| > 0 ==> HasConclusionIn(ins, p.id, f.conclusions.value))
  }

  /** The patients that pass the filters, in table order. */
  function ListedPatients(patients: seq<PatientEntity>, ins: seq<InspectionEntity>, f: PatientFilter,
                          now: DateTime): (r: seq<PatientEntity>)
    ensures forall p :: p in r <==> p in patients && Listed(p, ins, f, now)
  {
    Filter(patients, PassesFilters(ins, f, now))
  }

  function PassesFilters(ins: seq<InspectionEntity>, f: PatientFilter, now: DateTime): PatientEntity -> bool {
    (p: PatientEntity) => Listed(p, ins, f, now)
  }

  /** The `k`-th listed patient is the `k`-th row of the table that passes
      the filters. */
  lemma ListedInTableOrder(patients: seq<PatientEntity>, ins: seq<InspectionEntity>, f: PatientFilter, now: DateTime)
    ensures var r := ListedPatients(patients, ins, f, now);
      var at := Positions(patients, PassesFilters(ins, f, now));
      |r| == |at| && forall k :: 0 <= k < |r| ==> r[k] == patients[at[k]]
  {
    FilterInOrder(patients, PassesFilters(ins, f, now));
  }

  /** `p.Inspections.Max(i => i.Date)`: the latest date among the patient's
      inspections, null when the patient has no dated inspection. */
  function LatestDate(ins: seq<InspectionEntity>, pid: Guid): (r: Option<DateTime>)
    ensures r.Some? ==> exists i :: i in ins && i.patientId == Some(pid) && i.date == r
    ensures r.Some? ==> forall i :: i in ins && i.patientId == Some(pid) && i.date.Some? ==> i.date.value <= r.value
    ensures r.None? ==> forall i :: i in ins && i.patientId == Some(pid) ==> i.date.None?
  {
    if ins == [] then None
    else
      var rest := LatestDate(ins[1..], pid);
      assert forall i :: i in ins ==> i == ins[0] || i in ins[1..];
      var i := ins[0];
      if i.patientId != Some(pid) || i.date.None? then rest
      else if rest.Some? && rest.value >= i.date.value then rest
      else i.date
  }

  /** The key a sorting orders by. */
  function SortKey(s: PatientSorting, ins: seq<InspectionEntity>, p: PatientEntity): Key {
    match s
    case NameAsc | NameDesc => Text(p.name)
    case CreateAsc | CreateDesc => Num(p.createTime)
    case InspectionAsc | InspectionDesc =>
      var d := LatestDate(ins, p.id);
      if d.Some? then Num(d.value) else Null
  }

  predicate Ascending(s: PatientSorting) {
    s.NameAsc? || s.CreateAsc? || s.InspectionAsc?
  }

  /** The filtered patients in the requested order (table order when no
      sorting is requested). */
  function ArrangedPatients(patients: seq<PatientEntity>, ins: seq<InspectionEntity>, f: PatientFilter,
                            sorting: Option<PatientSorting>, now: DateTime): (r: seq<PatientEntity>)
    ensures multiset(r) == multiset(ListedPatients(patients, ins, f, now))
    ensures sorting.Some? ==>
      SortedBy(r, (p: PatientEntity) => SortKey(sorting.value, ins, p), Ascending(sorting.value))
  {
    var listed := ListedPatients(patients, ins, f, now);
    if sorting.None? then listed
    else
      var key := (p: PatientEntity) => SortKey(sorting.value, ins, p);
      SortBySorted(listed, key, Ascending(sorting.value));
      SortBy(listed, key, Ascending(sorting.value))
  }

  /** Ordering adds and loses no patient: the arranged list holds exactly the
      patients that pass the filters. */
  lemma ArrangedMembers(patients: seq<PatientEntity>, ins: seq<InspectionEntity>, f: PatientFilter,
                        sorting: Option<PatientSorting>, now: DateTime, p: PatientEntity)
    ensures p in ArrangedPatients(patients, ins, f, sorting, now) <==> p in ListedPatients(patients, ins, f, now)
  {
    var listed := ListedPatients(patients, ins, f, now);
    var r := ArrangedPatients(patients, ins, f, sorting, now);
    assert p in r <==> p in multiset(r);
    assert p in listed <==> p in multiset(listed);
  }

  /** A page of the arranged patients counts all listed patients and shows
      only listed ones. */
  lemma PageOfListed(patients: seq<PatientEntity>, ins: seq<InspectionEntity>, f: PatientFilter,
                     sorting: Option<PatientSorting>, page: int, size: int, now: DateTime)
    requires page > 0 && size > 0
    ensures |ArrangedPatients(patients, ins, f, sorting, now)| == |ListedPatients(patients, ins, f, now)|
    ensures forall m :: m in MapSeq(Page(ArrangedPatients(patients, ins, f, sorting, now), page, size), ToPatientModel) ==>
      exists p :: p in ListedPatients(patients, ins, f, now) && m == ToPatientModel(p)
  {
    var arranged := ArrangedPatients(patients, ins, f, sorting, now);
    var listed := ListedPatients(patients, ins, f, now);
    assert |multiset(arranged)| == |multiset(listed)|;
    PageImage(arranged, page, size, ToPatientModel);
    forall m | m in MapSeq(Page(arranged, page, size), ToPatientModel)
      ensures exists p :: p in listed && m == ToPatientModel(p)
    {
      var p :| p in arranged && m == ToPatientModel(p);
      ArrangedMembers(patients, ins, f, sorting, now, p);
    }
  }

  datatype PatientPagedList = PatientPagedList(patients: seq<PatientModel>, pagination: PageInfo)

  /** `GetPatientsList`: the page of the filtered, ordered patients, with the
      pagination block (`Count` is the number of pages of all filtered
      patients). */
  method GetPatientsList(patients: seq<PatientEntity>, ins: seq<InspectionEntity>, f: PatientFilter,
                         sorting: Option<PatientSorting>, page: int, size: int, now: DateTime)
    returns (r: PatientPagedList)
    requires page > 0 && size > 0
    ensures r.pagination == Pagination(|ListedPatients(patients, ins, f, now)|, page, size)
    ensures r.patients == MapSeq(Page(ArrangedPatients(patients, ins, f, sorting, now), page, size), ToPatientModel)
    ensures |r.patients| <= size
    ensures forall m :: m in r.patients ==>
      exists p :: p in ListedPatients(patients, ins, f, now) && m == ToPatientModel(p)
  {
    var arranged := ArrangedPatients(patients, ins, f, sorting, now);
    var pagination := Pagination(|arranged|, page, size);
    var onPage := Page(arranged, page, size);
    var models := ModelsOf(onPage, ToPatientModel);
    assert models == MapSeq(onPage, ToPatientModel);
    PageOfListed(patients, ins, f, sorting, page, size, now);
    r := PatientPagedList(models, pagination);
  }
}
