/** The read side of an inspection: `GetInspection` assembles one visit with
    its patient, its doctor, its diagnoses (each with the code of its ICD-10
    record) and its consultations (each with its speciality, its number of
    comments and its root comment with the author). */
module InspectionRepository {
  import opened Common
  import opened Entities
  import opened Store
  import PatientRepository

  datatype DiagnosisModel = DiagnosisModel(
    id: Guid,
    createTime: DateTime,
    code: Option<string>,
    name: Option<string>,
    description: Option<string>,
    diagnosisType: DiagnosisType)

  /** The speciality of a consultation as `GetInspection` fills it: creation
      time and name are looked up, and are `default(DateTime)` and null when
      no speciality has the id. */
  datatype SpecialityRef = SpecialityRef(id: Guid, createTime: DateTime, name: Option<string>)

  datatype InspectionCommentModel = InspectionCommentModel(
    id: Guid,
    createTime: DateTime,
    modifyTime: Option<DateTime>,
    content: string,
    parentId: Option<Guid>,
    author: DoctorModel)

  datatype InspectionConsultationModel = InspectionConsultationModel(
    id: Guid,
    createTime: DateTime,
    inspectionId: Guid,
    speciality: SpecialityRef,
    rootComment: InspectionCommentModel,
    commentsNumber: nat)

  datatype InspectionModel = InspectionModel(
    id: Guid,
    createTime: DateTime,
    date: DateTime,
    anamnesis: Option<string>,
    complaints: Option<string>,
    treatment: Option<string>,
    conclusion: Option<Conclusion>,
    nextVisitDate: Option<DateTime>,
    deathDate: Option<DateTime>,
    baseInspectionId: Option<Guid>,
    previousInspectionId: Option<Guid>,
    patient: PatientModel,
    doctor: DoctorModel,
    diagnoses: seq<DiagnosisModel>,
    consultations: seq<InspectionConsultationModel>)

  /** `default(DateTime)`, `DateTime.MinValue`: zero ticks. */
  const DefaultDateTime: DateTime := 0

  // ---------------------------------------------------------------------
  // Diagnoses

  /** The code of ICD-10 record `icdId`: the code of the first record with
      that id, which may itself be null, and null when there is no such
      record. */
  function IcdCode(icds: seq<Icd10Entity>, icdId: Guid): (r: Option<string>)
    ensures r.Some? ==> exists i :: i in icds && i.id == icdId && i.code == r
    ensures (forall i :: i in icds ==> i.id != icdId) ==> r.None?
    ensures (exists i :: i in icds && i.id == icdId) ==>
      exists k :: 0 <= k < |icds| && icds[k].id == icdId && r == icds[k].code
        && forall j :: 0 <= j < k ==> icds[j].id != icdId
  {
    match First(icds, (i: Icd10Entity) => i.id == icdId)
    case None => None
    case Some(i) => i.code
  }

  function ToDiagnosisModel(icds: seq<Icd10Entity>, d: DiagnosisEntity): DiagnosisModel {
    DiagnosisModel(d.id, d.createTime, IcdCode(icds, d.icd10Id), d.name, d.description, d.diagnosisType)
  }

  /** The diagnoses the inspection includes: those that refer to it, in
      table order (`DiagnosesInTableOrder`). */
  function DiagnosesOf(diagnoses: seq<DiagnosisEntity>, id: Guid): (r: seq<DiagnosisEntity>)
    ensures forall d :: d in r <==> d in diagnoses && d.inspectionId == id
  {
    Filter(diagnoses, OfInspection(id))
  }

  /** The `k`-th diagnosis of the inspection is the `k`-th row of the table
      that refers to it. */
  lemma DiagnosesInTableOrder(diagnoses: seq<DiagnosisEntity>, id: Guid)
    ensures var r := DiagnosesOf(diagnoses, id);
      var at := Positions(diagnoses, OfInspection(id));
      |r| == |at| && forall k :: 0 <= k < |r| ==> r[k] == diagnoses[at[k]]
  {
    FilterInOrder(diagnoses, OfInspection(id));
  }

  function OfInspection(id: Guid): DiagnosisEntity -> bool {
    (d: DiagnosisEntity) => d.inspectionId == id
  }

  /** `ToDiagnosisModel` with the ICD-10 table fixed. */
  function DiagnosisModelOf(icds: seq<Icd10Entity>): DiagnosisEntity -> DiagnosisModel {
    (d: DiagnosisEntity) => ToDiagnosisModel(icds, d)
  }

  /** One model per diagnosis, in order. */
  method MapDiagnoses(icds: seq<Icd10Entity>, ds: seq<DiagnosisEntity>) returns (models: seq<DiagnosisModel>)
    ensures models == MapSeq(ds, DiagnosisModelOf(icds))
  {
    models := [];
    var k := 0;
    while k < |ds|
      invariant 0 <= k <= |ds| && |models| == k
      invariant forall j :: 0 <= j < k ==> models[j] == ToDiagnosisModel(icds, ds[j])
    {
      models := models + [ToDiagnosisModel(icds, ds[k])];
      k := k + 1;
    }
  }

  // ---------------------------------------------------------------------
  // Consultations

  /** The speciality of a consultation. */
  function SpecialityOf(specialities: seq<SpecialityEntity>, sid: Guid): (r: SpecialityRef)
    ensures r.id == sid
    ensures r.name.Some? <==> exists s :: s in specialities && s.id == sid
    ensures r.name.Some? ==>
      (exists s :: s in specialities && s.id == sid && r.name == Some(s.name) && r.createTime == s.createTime)
    ensures r.name.None? ==> r.createTime == DefaultDateTime
  {
    match First(specialities, (s: SpecialityEntity) => s.id == sid)
    case None => SpecialityRef(sid, DefaultDateTime, None)
    case Some(s) => SpecialityRef(sid, s.createTime, Some(s.name))
  }

  /** The doctor with id `id`. */
  function WithId(id: Guid): DoctorEntity -> bool {
    (d: DoctorEntity) => d.id == id
  }

  /** The model of one consultation: its own fields, its speciality, the
      first parentless comment of its thread with that comment's author, and
      the number of comments in the thread. What the lookups find is stated
      in `ConsultationViewFindsRoot`. */
  function ConsultationView(comments: seq<CommentEntity>, doctors: seq<DoctorEntity>,
                            specialities: seq<SpecialityEntity>, c: ConsultationEntity)
    : (r: Result<InspectionConsultationModel>)
    ensures r.Failure? ==> r.fault == NullReference
    ensures r.Success? ==> r.value.id == c.id && r.value.inspectionId == c.inspectionId
  {
    match First(comments, IsThreadRoot(c.id))
    case None => Failure(NullReference)
    case Some(m) =>
      match First(doctors, WithId(m.authorId))
      case None => Failure(NullReference)
      case Some(a) =>
        Success(InspectionConsultationModel(
          c.id, c.createTime, c.inspectionId, SpecialityOf(specialities, c.specialityId),
          InspectionCommentModel(m.id, m.createTime, m.modifiedDate, m.content, m.parentId, ToDoctorModel(a)),
          CountIf(comments, InThread(c.id))))
  }

  /** The root comment is the first comment of the consultation without a
      parent, and the author is the doctor the root comment names; when
      either lookup finds nothing, the code dereferences null. */
  lemma ConsultationViewFindsRoot(comments: seq<CommentEntity>, doctors: seq<DoctorEntity>,
                                  specialities: seq<SpecialityEntity>, c: ConsultationEntity)
    ensures var r := ConsultationView(comments, doctors, specialities, c);
      && (r.Failure? <==>
           First(comments, IsThreadRoot(c.id)).None?
           || (forall d :: d in doctors ==> d.id != First(comments, IsThreadRoot(c.id)).value.authorId))
      && (r.Success? ==>
           && r.value.createTime == c.createTime
           && r.value.speciality == SpecialityOf(specialities, c.specialityId)
           && r.value.commentsNumber == CountIf(comments, InThread(c.id))
           && r.value.rootComment.parentId.None?
           && (exists m :: m in comments && m.consultationId == c.id && m.parentId.None?
                && r.value.rootComment.id == m.id && r.value.rootComment.content == m.content
                && (exists d :: d in doctors && d.id == m.authorId && r.value.rootComment.author == ToDoctorModel(d))))
  {
  }

  /** `ConsultationView` with the tables fixed. */
  function ViewOf(comments: seq<CommentEntity>, doctors: seq<DoctorEntity>, specialities: seq<SpecialityEntity>)
    : ConsultationEntity -> Result<InspectionConsultationModel>
  {
    (c: ConsultationEntity) => ConsultationView(comments, doctors, specialities, c)
  }

  /** The models of consultations `cs`, in order; the first consultation
      whose model cannot be built ends the whole operation (see
      `ConsultationViewsElementwise`). */
  function ConsultationViews(comments: seq<CommentEntity>, doctors: seq<DoctorEntity>,
                             specialities: seq<SpecialityEntity>, cs: seq<ConsultationEntity>)
    : (r: Result<seq<InspectionConsultationModel>>)
    ensures r.Success? ==> |r.value| == |cs|
    ensures r.Failure? ==> r.fault == NullReference
  {
    Traverse(cs, ViewOf(comments, doctors, specialities))
  }

  /** The list succeeds exactly when every consultation's model can be
      built, and then holds those models position by position. */
  lemma ConsultationViewsElementwise(comments: seq<CommentEntity>, doctors: seq<DoctorEntity>,
                                     specialities: seq<SpecialityEntity>, cs: seq<ConsultationEntity>)
    ensures var r := ConsultationViews(comments, doctors, specialities, cs);
      && (r.Success? <==> forall k :: 0 <= k < |cs| ==> ConsultationView(comments, doctors, specialities, cs[k]).Success?)
      && (r.Success? ==>
            forall k :: 0 <= k < |cs| ==> r.value[k] == ConsultationView(comments, doctors, specialities, cs[k]).value)
  {
    TraverseElementwise(cs, ViewOf(comments, doctors, specialities));
  }

  /** The consultations the inspection includes: those that refer to it. */
  function ConsultationsOf(consultations: seq<ConsultationEntity>, id: Guid): (r: seq<ConsultationEntity>)
    ensures forall c :: c in r <==> c in consultations && c.inspectionId == id
  {
    Filter(consultations, ConsultationOf(id))
  }

  function ConsultationOf(id: Guid): ConsultationEntity -> bool {
    (c: ConsultationEntity) => c.inspectionId == id
  }

  /** One model per consultation, in order, or the failure of the first
      consultation whose model cannot be built. */
  method MapConsultations(comments: seq<CommentEntity>, doctors: seq<DoctorEntity>,
                          specialities: seq<SpecialityEntity>, cs: seq<ConsultationEntity>)
    returns (r: Result<seq<InspectionConsultationModel>>)
    ensures r == ConsultationViews(comments, doctors, specialities, cs)
  {
    var view := ViewOf(comments, doctors, specialities);
    ghost var whole := Traverse(cs, view);
    var models: seq<InspectionConsultationModel> := [];
    var k := 0;
    TraverseFrom(cs, view, 0, []);
    while k < |cs|
      invariant 0 <= k <= |cs|
      invariant whole == Prepend(models, Traverse(cs[k..], view))
    {
      TraverseStep(cs, view, k, models);
      var v := ConsultationView(comments, doctors, specialities, cs[k]);
      assert view(cs[k]) == v;
      if v.Failure? {
        return Failure(v.fault);
      }
      models := models + [v.value];
      k := k + 1;
    }
    TraverseFrom(cs, view, |cs|, models);
    r := Success(models);
  }

  // ---------------------------------------------------------------------
  // The inspection

  /** The scalar part of the model, with `Date` replaced by `now` when it is
      null. */
  function Scalars(i: InspectionEntity, now: DateTime, p: PatientModel, d: DoctorModel): InspectionModel {
    InspectionModel(i.id, i.createTime, if i.date.Some? then i.date.value else now,
                    i.anamnesis, i.complaints, i.treatment, i.conclusion, i.nextVisitDate, i.deathDate,
                    i.baseInspectionId, i.previousInspectionId, p, d, [], [])
  }

  /** The row a nullable foreign key leads to, null when the key is null or
      names no row. */
  function PatientOf(patients: seq<PatientEntity>, pid: Option<Guid>): (r: Option<PatientEntity>)
    ensures r.Some? ==> pid.Some? && r.value in patients && r.value.id == pid.value
    ensures r.None? ==> pid.None? || forall p :: p in patients ==> p.id != pid.value
  {
    if pid.None? then None else First(patients, (p: PatientEntity) => p.id == pid.value)
  }

  function DoctorOf(doctors: seq<DoctorEntity>, did: Option<Guid>): (r: Option<DoctorEntity>)
    ensures r.Some? ==> did.Some? && r.value in doctors && r.value.id == did.value
    ensures r.None? ==> did.None? || forall d :: d in doctors ==> d.id != did.value
  {
    if did.None? then None else First(doctors, (d: DoctorEntity) => d.id == did.value)
  }

  /** What `GetInspection(id)` returns or throws. */
  function InspectionView(inspections: seq<InspectionEntity>, patients: seq<PatientEntity>,
                          doctors: seq<DoctorEntity>, icds: seq<Icd10Entity>, diagnoses: seq<DiagnosisEntity>,
                          consultations: seq<ConsultationEntity>, comments: seq<CommentEntity>,
                          specialities: seq<SpecialityEntity>, id: Guid, now: DateTime)
    : (r: Result<InspectionModel>)
    ensures r == Failure(KeyNotFound) <==> forall i :: i in inspections ==> i.id != id
    ensures r.Success? ==>
      (exists i :: i in inspections && i.id == id
        && r.value.id == id && r.value.createTime == i.createTime
        && r.value.date == (if i.date.Some? then i.date.value else now)
        && r.value.anamnesis == i.anamnesis && r.value.complaints == i.complaints
        && r.value.treatment == i.treatment && r.value.conclusion == i.conclusion
        && r.value.nextVisitDate == i.nextVisitDate && r.value.deathDate == i.deathDate
        && r.value.baseInspectionId == i.baseInspectionId
        && r.value.previousInspectionId == i.previousInspectionId)
  {
    match PatientRepository.FindInspection(inspections, id)
    case None => Failure(KeyNotFound)
    case Some(i) =>
      match PatientOf(patients, i.patientId)
      case None => Failure(NullReference)
      case Some(p) =>
        match DoctorOf(doctors, i.doctorId)
        case None => Failure(NullReference)
        case Some(d) =>
          match ConsultationViews(comments, doctors, specialities, ConsultationsOf(consultations, i.id))
          case Failure(f) => Failure(f)
          case Success(cms) =>
            Success(Scalars(i, now, ToPatientModel(p), ToDoctorModel(d)).(
              diagnoses := MapSeq(DiagnosesOf(diagnoses, i.id), DiagnosisModelOf(icds)),
              consultations := cms))
  }

  /** `GetInspection(id)`. It writes nothing. */
  method GetInspection(db: Db, id: Guid, now: DateTime) returns (r: Result<InspectionModel>)
    ensures r == InspectionView(db.inspections, db.patients, db.doctors, db.icd10s, db.diagnoses,
                                db.consultations, db.comments, db.specialities, id, now)
  {
    var found := PatientRepository.FindInspection(db.inspections, id);
    if found.None? {
      return Failure(KeyNotFound);
    }
    var inspection := found.value;
    var patient := PatientOf(db.patients, inspection.patientId);
    if patient.None? {
      return Failure(NullReference);
    }
    var doctor := DoctorOf(db.doctors, inspection.doctorId);
    if doctor.None? {
      return Failure(NullReference);
    }
    var model := Scalars(inspection, now, ToPatientModel(patient.value), ToDoctorModel(doctor.value));
    var diagnosisModels := MapDiagnoses(db.icd10s, DiagnosesOf(db.diagnoses, inspection.id));
    var consultationModels := MapConsultations(db.comments, db.doctors, db.specialities,
                                               ConsultationsOf(db.consultations, inspection.id));
    if consultationModels.Failure? {
      return Failure(consultationModels.fault);
    }
    r := Success(model.(diagnoses := diagnosisModels, consultations := consultationModels.value));
  }

  /** The view of an inspection lists every diagnosis that refers to it, in
      table order, each with the code of its ICD-10 record. */
  lemma ViewListsDiagnoses(inspections: seq<InspectionEntity>, patients: seq<PatientEntity>,
                           doctors: seq<DoctorEntity>, icds: seq<Icd10Entity>,
                           diagnoses: seq<DiagnosisEntity>, consultations: seq<ConsultationEntity>,
                           comments: seq<CommentEntity>, specialities: seq<SpecialityEntity>,
                           id: Guid, now: DateTime, v: InspectionModel)
    requires InspectionView(inspections, patients, doctors, icds, diagnoses, consultations, comments,
                            specialities, id, now) == Success(v)
    ensures |v.diagnoses| == CountIf(diagnoses, OfInspection(id))
    ensures forall m :: m in v.diagnoses ==>
      exists d :: d in diagnoses && d.inspectionId == id
        && m == ToDiagnosisModel(icds, d) && m.code == IcdCode(icds, d.icd10Id)
    ensures var at := Positions(diagnoses, OfInspection(id));
      |v.diagnoses| == |at| && forall k :: 0 <= k < |at| ==> v.diagnoses[k] == ToDiagnosisModel(icds, diagnoses[at[k]])
  {
    var i := PatientRepository.FindInspection(inspections, id).value;
    var p := PatientOf(patients, i.patientId).value;
    var dr := DoctorOf(doctors, i.doctorId).value;
    var cms := ConsultationViews(comments, doctors, specialities, ConsultationsOf(consultations, i.id)).value;
    assert v == Scalars(i, now, ToPatientModel(p), ToDoctorModel(dr)).(
      diagnoses := MapSeq(DiagnosesOf(diagnoses, i.id), DiagnosisModelOf(icds)), consultations := cms);
    assert i.id == id;
    DiagnosisModelsOf(icds, diagnoses, id, v.diagnoses);
    DiagnosesInTableOrder(diagnoses, id);
  }

  /** The diagnosis models of inspection `id`, one per diagnosis that refers
      to it. */
  lemma DiagnosisModelsOf(icds: seq<Icd10Entity>, diagnoses: seq<DiagnosisEntity>, id: Guid, ms: seq<DiagnosisModel>)
    requires ms == MapSeq(DiagnosesOf(diagnoses, id), DiagnosisModelOf(icds))
    ensures |ms| == CountIf(diagnoses, OfInspection(id))
    ensures forall m :: m in ms ==>
      exists d :: d in diagnoses && d.inspectionId == id
        && m == ToDiagnosisModel(icds, d) && m.code == IcdCode(icds, d.icd10Id)
  {
    var ds := DiagnosesOf(diagnoses, id);
    forall m | m in ms
      ensures exists d :: (d in diagnoses && d.inspectionId == id
        && m == ToDiagnosisModel(icds, d) && m.code == IcdCode(icds, d.icd10Id))
    {
      var j :| 0 <= j < |ms| && ms[j] == m;
      assert ds[j] in ds;
      assert ds[j] in diagnoses && ds[j].inspectionId == id
        && m == ToDiagnosisModel(icds, ds[j]) && m.code == IcdCode(icds, ds[j].icd10Id);
    }
  }

  /** The view of an inspection has one consultation per consultation that
      refers to it, in table order, each counting the comments of its
      thread. */
  lemma ViewCountsThreads(inspections: seq<InspectionEntity>, patients: seq<PatientEntity>,
                          doctors: seq<DoctorEntity>, icds: seq<Icd10Entity>,
                          diagnoses: seq<DiagnosisEntity>, consultations: seq<ConsultationEntity>,
                          comments: seq<CommentEntity>, specialities: seq<SpecialityEntity>,
                          id: Guid, now: DateTime, v: InspectionModel)
    requires InspectionView(inspections, patients, doctors, icds, diagnoses, consultations, comments,
                            specialities, id, now) == Success(v)
    ensures |v.consultations| == CountIf(consultations, ConsultationOf(id))
    ensures forall m :: m in v.consultations ==>
      exists c :: c in consultations && c.inspectionId == id
        && m.id == c.id && m.commentsNumber == CountIf(comments, InThread(c.id))
    ensures var at := Positions(consultations, ConsultationOf(id));
      |v.consultations| == |at| && forall k :: 0 <= k < |at| ==>
        v.consultations[k].id == consultations[at[k]].id
        && v.consultations[k].commentsNumber == CountIf(comments, InThread(consultations[at[k]].id))
  {
    var i := PatientRepository.FindInspection(inspections, id).value;
    var p := PatientOf(patients, i.patientId).value;
    var dr := DoctorOf(doctors, i.doctorId).value;
    var cs := ConsultationsOf(consultations, i.id);
    var cms := ConsultationViews(comments, doctors, specialities, cs).value;
    assert v == Scalars(i, now, ToPatientModel(p), ToDoctorModel(dr)).(
      diagnoses := MapSeq(DiagnosesOf(diagnoses, i.id), DiagnosisModelOf(icds)), consultations := cms);
    assert i.id == id;
    ConsultationViewsElementwise(comments, doctors, specialities, cs);
    forall m | m in v.consultations
      ensures exists c :: (c in consultations && c.inspectionId == id
        && m.id == c.id && m.commentsNumber == CountIf(comments, InThread(c.id)))
    {
      var j :| 0 <= j < |cms| && cms[j] == m;
      assert cs[j] in cs;
      ConsultationViewFindsRoot(comments, doctors, specialities, cs[j]);
      assert cs[j] in consultations && cs[j].inspectionId == id
        && m.id == cs[j].id && m.commentsNumber == CountIf(comments, InThread(cs[j].id));
    }
    ThreadsInTableOrder(comments, doctors, specialities, consultations, id, cms);
  }

  /** The `k`-th consultation model is built from the `k`-th row of the
      table that refers to the inspection, and counts that thread's
      comments. */
  lemma ThreadsInTableOrder(comments: seq<CommentEntity>, doctors: seq<DoctorEntity>,
                            specialities: seq<SpecialityEntity>, consultations: seq<ConsultationEntity>,
                            id: Guid, cms: seq<InspectionConsultationModel>)
    requires ConsultationViews(comments, doctors, specialities, ConsultationsOf(consultations, id)) == Success(cms)
    ensures var at := Positions(consultations, ConsultationOf(id));
      |cms| == |at| && forall k :: 0 <= k < |at| ==>
        cms[k].id == consultations[at[k]].id
        && cms[k].commentsNumber == CountIf(comments, InThread(consultations[at[k]].id))
  {
    var cs := ConsultationsOf(consultations, id);
    FilterInOrder(consultations, ConsultationOf(id));
    ConsultationViewsElementwise(comments, doctors, specialities, cs);
    forall k | 0 <= k < |cms| ensures cms[k].id == cs[k].id && cms[k].commentsNumber == CountIf(comments, InThread(cs[k].id)) {
      ConsultationViewFindsRoot(comments, doctors, specialities, cs[k]);
    }
  }

  /** A consultation created together with its inspection, with fresh ids,
      shows exactly one comment, and its root comment is the seeded one with
      the creating doctor as author. */
  lemma CreatedConsultationView(comments: seq<CommentEntity>, doctors: seq<DoctorEntity>,
                                specialities: seq<SpecialityEntity>,
                                cs: seq<PatientRepository.ConsultationCreateModel>, cids: seq<Guid>,
                                mids: seq<Guid>, now: DateTime, doctorId: Guid, inspectionId: Guid, j: int)
    requires |cids| == |cs| == |mids| && 0 <= j < |cs|
    requires forall a, b :: 0 <= a < b < |cids| ==> cids[a] != cids[b]
    requires forall c :: c in comments ==> c.consultationId !in cids
    requires exists d :: d in doctors && d.id == doctorId
    ensures var v := ConsultationView(comments + PatientRepository.SeedComments(cs, cids, mids, now, doctorId),
                                      doctors, specialities,
                                      PatientRepository.NewConsultations(cs, cids, now, inspectionId)[j]);
      && v.Success?
      && v.value.id == cids[j] && v.value.inspectionId == inspectionId
      && v.value.commentsNumber == 1
      && v.value.rootComment.id == mids[j] && v.value.rootComment.content == cs[j].commentContent
      && v.value.rootComment.author.id == doctorId
  {
    PatientRepository.SeededCommentIsUnique(comments, cs, cids, mids, now, doctorId, j);
    var seed := PatientRepository.SeedComments(cs, cids, mids, now, doctorId);
    var all := comments + seed;
    var c := PatientRepository.NewConsultations(cs, cids, now, inspectionId)[j];
    assert c.id == cids[j] && c.inspectionId == inspectionId;
    var m := seed[j];
    assert m.id == mids[j] && m.authorId == doctorId && m.content == cs[j].commentContent;
    assert First(all, IsThreadRoot(c.id)) == Some(m);
    var a := First(doctors, WithId(m.authorId));
    assert a.Some? && a.value.id == doctorId;
    assert ConsultationView(all, doctors, specialities, c) == Success(InspectionConsultationModel(
      c.id, c.createTime, c.inspectionId, SpecialityOf(specialities, c.specialityId),
      InspectionCommentModel(m.id, m.createTime, m.modifiedDate, m.content, m.parentId, ToDoctorModel(a.value)),
      CountIf(all, InThread(c.id))));
  }
}
