/** The rows of the database tables, one datatype per entity class. Navigation
    properties are replaced by the foreign keys the database stores: a
    diagnosis row carries the id of its inspection, a comment the id of its
    consultation, and an inspection the (nullable) ids of its patient and its
    doctor. Only the columns some modelled operation reads or writes are kept. */
module Entities {
  import opened Common

  datatype PatientEntity = PatientEntity(
    id: Guid,
    doctorId: Guid,
    createTime: DateTime,
    name: string,
    birthday: Option<DateTime>,
    gender: Gender)

  datatype DoctorEntity = DoctorEntity(
    id: Guid,
    createTime: DateTime,
    name: string,
    birthday: Option<DateTime>,
    gender: Gender,
    speciality: Guid,
    email: string,
    password: string,
    phone: Option<string>)

  datatype SpecialityEntity = SpecialityEntity(id: Guid, createTime: DateTime, name: string)

  /** An ICD-10 record. `icdParentId` names the parent by its `icdId` (a string
      key of the imported catalogue); `icdRootCode` is the code of the
      record's top-level ancestor, computed once at import. */
  datatype Icd10Entity = Icd10Entity(
    id: Guid,
    createTime: DateTime,
    icdId: string,
    icdParentId: Option<string>,
    icdRootCode: Option<string>,
    code: Option<string>,
    name: Option<string>)

  /** A visit. `previousInspectionId` is the visit it follows up on;
      `baseInspectionId` the first visit of its chain (null on that first
      visit itself). */
  datatype InspectionEntity = InspectionEntity(
    id: Guid,
    createTime: DateTime,
    date: Option<DateTime>,
    anamnesis: Option<string>,
    complaints: Option<string>,
    treatment: Option<string>,
    conclusion: Option<Conclusion>,
    nextVisitDate: Option<DateTime>,
    deathDate: Option<DateTime>,
    baseInspectionId: Option<Guid>,
    previousInspectionId: Option<Guid>,
    patientId: Option<Guid>,
    doctorId: Option<Guid>)

  datatype DiagnosisEntity = DiagnosisEntity(
    id: Guid,
    createTime: DateTime,
    name: Option<string>,
    description: Option<string>,
    diagnosisType: DiagnosisType,
    icd10Id: Guid,
    inspectionId: Guid)

  datatype ConsultationEntity = ConsultationEntity(
    id: Guid,
    createTime: DateTime,
    inspectionId: Guid,
    specialityId: Guid)

  /** A comment of a consultation's thread; `parentId` is null on the root
      comment of the thread. */
  datatype CommentEntity = CommentEntity(
    id: Guid,
    createTime: DateTime,
    modifiedDate: Option<DateTime>,
    content: string,
    authorId: Guid,
    parentId: Option<Guid>,
    consultationId: Guid)

  /** One attempt to send the reminder for inspection `inspectionId`. */
  datatype NotificationLog = NotificationLog(
    id: Guid,
    inspectionId: Guid,
    sentDate: DateTime,
    isNotificationSent: bool,
    exceptionMessage: Option<string>)

  /** `PatientModel`, the patient as the API returns it. */
  datatype PatientModel = PatientModel(
    id: Guid,
    createTime: DateTime,
    name: string,
    birthday: Option<DateTime>,
    gender: Gender)

  /** `DoctorModel`: a doctor without the password. */
  datatype DoctorModel = DoctorModel(
    id: Guid,
    createTime: DateTime,
    name: string,
    birthday: Option<DateTime>,
    gender: Gender,
    email: string,
    phone: Option<string>,
    speciality: Guid)

  function ToPatientModel(p: PatientEntity): PatientModel {
    PatientModel(p.id, p.createTime, p.name, p.birthday, p.gender)
  }

  function ToDoctorModel(d: DoctorEntity): DoctorModel {
    DoctorModel(d.id, d.createTime, d.name, d.birthday, d.gender, d.email, d.phone, d.speciality)
  }

  /** The filter selecting the comments of consultation `cid`. */
  function InThread(cid: Guid): CommentEntity -> bool {
    (c: CommentEntity) => c.consultationId == cid
  }

  /** The filter selecting the root comment of consultation `cid`: a comment
      of that consultation without a parent. */
  function IsThreadRoot(cid: Guid): CommentEntity -> bool {
    (c: CommentEntity) => c.consultationId == cid && c.parentId.None?
  }
}

/** The database context: one table per entity, each a sequence of rows in
    the order the database returns them when a query does not sort. */
module Store {
  import opened Entities

  class Db {
    var patients: seq<PatientEntity>
    var doctors: seq<DoctorEntity>
    var specialities: seq<SpecialityEntity>
    var icd10s: seq<Icd10Entity>
    var inspections: seq<InspectionEntity>
    var diagnoses: seq<DiagnosisEntity>
    var consultations: seq<ConsultationEntity>
    var comments: seq<CommentEntity>
    var notificationLogs: seq<NotificationLog>

    constructor ()
      ensures patients == [] && doctors == [] && specialities == [] && icd10s == []
      ensures inspections == [] && diagnoses == [] && consultations == [] && comments == []
      ensures notificationLogs == []
    {
      patients, doctors, specialities, icd10s := [], [], [], [];
      inspections, diagnoses, consultations, comments := [], [], [], [];
      notificationLogs := [];
    }
  }
}
