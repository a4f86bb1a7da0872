/** Visit reminders. An inspection is due for a reminder when its next visit
    date has passed and no notification log refers to it. An attempt that ends
    in success or an SMTP command error is logged, which takes the inspection
    out of the due set; any other failure stops the run unlogged and the
    inspection stays due. */
module EmailService {
  import opened Common
  import opened Entities
  import opened Store

  /** Some log refers to inspection `id`. */
  predicate Logged(logs: seq<NotificationLog>, id: Guid) {
    exists l :: l in logs && l.inspectionId == id
  }

  /** The selection of `CheckInspections`. */
  predicate Due(i: InspectionEntity, logs: seq<NotificationLog>, now: DateTime) {
    i.nextVisitDate.Some? && i.nextVisitDate.value < now && !Logged(logs, i.id)
  }

  function DueInspections(ins: seq<InspectionEntity>, logs: seq<NotificationLog>, now: DateTime): (r: seq<InspectionEntity>)
    ensures forall i :: i in r <==> i in ins && Due(i, logs, now)
  {
    Filter(ins, DueNow(logs, now))
  }

  function DueNow(logs: seq<NotificationLog>, now: DateTime): InspectionEntity -> bool {
    (i: InspectionEntity) => Due(i, logs, now)
  }

  /** The `k`-th due inspection is the `k`-th row of the table that is
      due. */
  lemma DueInTableOrder(ins: seq<InspectionEntity>, logs: seq<NotificationLog>, now: DateTime)
    ensures var r := DueInspections(ins, logs, now);
      var at := Positions(ins, DueNow(logs, now));
      |r| == |at| && forall k :: 0 <= k < |r| ==> r[k] == ins[at[k]]
  {
    FilterInOrder(ins, DueNow(logs, now));
  }

  /** One selected inspection with its patient and doctor, each null when
      the row it refers to is missing. */
  datatype Reminder = Reminder(patient: Option<PatientEntity>, doctor: Option<DoctorEntity>, inspection: InspectionEntity)

  /** The reminder for inspection `i`: its patient and its doctor where the
      rows it refers to exist. */
  function ReminderFor(patients: seq<PatientEntity>, doctors: seq<DoctorEntity>, i: InspectionEntity): (r: Reminder)
    ensures r.inspection == i
    ensures r.patient.Some? ==> r.patient.value in patients && i.patientId == Some(r.patient.value.id)
    ensures r.doctor.Some? ==> r.doctor.value in doctors && i.doctorId == Some(r.doctor.value.id)
    ensures r.patient.None? <==> i.patientId.None? || forall p :: p in patients ==> p.id != i.patientId.value
    ensures r.doctor.None? <==> i.doctorId.None? || forall d :: d in doctors ==> d.id != i.doctorId.value
  {
    Reminder(
      if i.patientId.None? then None else First(patients, (p: PatientEntity) => p.id == i.patientId.value),
      if i.doctorId.None? then None else First(doctors, (d: DoctorEntity) => d.id == i.doctorId.value),
      i)
  }

  /** `CheckInspections()`: null when nothing is due, otherwise one reminder
      per due inspection, in table order. The same query is written out in
      both `EmailService` and `EmailRepository`. */
  method CheckInspections(ins: seq<InspectionEntity>, logs: seq<NotificationLog>, patients: seq<PatientEntity>,
                          doctors: seq<DoctorEntity>, now: DateTime)
    returns (r: Option<seq<Reminder>>)
    ensures r.None? <==> DueInspections(ins, logs, now) == []
    ensures r.Some? ==> |r.value| == |DueInspections(ins, logs, now)|
    ensures r.Some? ==> forall k :: 0 <= k < |r.value| ==>
      r.value[k] == ReminderFor(patients, doctors, DueInspections(ins, logs, now)[k])
    ensures r.Some? ==> forall k :: 0 <= k < |r.value| ==>
      r.value[k].inspection in ins && Due(r.value[k].inspection, logs, now)
  {
    var due := DueInspections(ins, logs, now);
    if |due| == 0 {
      return None;
    }
    var list: seq<Reminder> := [];
    var k := 0;
    while k < |due|
      invariant 0 <= k <= |due| && |list| == k
      invariant forall j :: 0 <= j < k ==> list[j] == ReminderFor(patients, doctors, due[j])
    {
      list := list + [ReminderFor(patients, doctors, due[k])];
      k := k + 1;
    }
    forall j | 0 <= j < k ensures list[j].inspection in ins && Due(list[j].inspection, logs, now) {
      assert due[j] in due;
    }
    r := Some(list);
  }

  /** `AddNotification(id, isSent)`: logs one attempt for inspection `id`.
      `Guid.NewGuid()` and `DateTime.UtcNow` are `logId` and `now`. */
  method AddNotification(db: Db, id: Guid, isSent: bool, now: DateTime, logId: Guid)
    modifies db
    ensures db.notificationLogs == old(db.notificationLogs) + [NotificationLog(logId, id, now, isSent, None)]
    ensures forall i: InspectionEntity, t :: i.id == id ==> !Due(i, db.notificationLogs, t)
    ensures db.patients == old(db.patients) && db.doctors == old(db.doctors) && db.inspections == old(db.inspections)
    ensures db.specialities == old(db.specialities) && db.icd10s == old(db.icd10s)
    ensures db.diagnoses == old(db.diagnoses) && db.consultations == old(db.consultations)
    ensures db.comments == old(db.comments)
  {
    var log := NotificationLog(logId, id, now, isSent, None);
    db.notificationLogs := db.notificationLogs + [log];
    assert log in db.notificationLogs;
  }

  /** `AddNotification(id, isSent, exceptionMsg)`: as above, also recording
      why sending failed. */
  method AddNotificationWithMessage(db: Db, id: Guid, isSent: bool, exceptionMsg: string, now: DateTime, logId: Guid)
    modifies db
    ensures db.notificationLogs == old(db.notificationLogs) + [NotificationLog(logId, id, now, isSent, Some(exceptionMsg))]
    ensures forall i: InspectionEntity, t :: i.id == id ==> !Due(i, db.notificationLogs, t)
    ensures db.patients == old(db.patients) && db.doctors == old(db.doctors) && db.inspections == old(db.inspections)
    ensures db.specialities == old(db.specialities) && db.icd10s == old(db.icd10s)
    ensures db.diagnoses == old(db.diagnoses) && db.consultations == old(db.consultations)
    ensures db.comments == old(db.comments)
  {
    var log := NotificationLog(logId, id, now, isSent, Some(exceptionMsg));
    db.notificationLogs := db.notificationLogs + [log];
    assert log in db.notificationLogs;
  }

  /** Logs are only ever added, so an inspection once logged is never due
      again, at any later time, while the due set can only lose the
      inspections that the new logs name. */
  lemma MoreLogsFewerDue(ins: seq<InspectionEntity>, logs: seq<NotificationLog>, extra: seq<NotificationLog>,
                         now: DateTime, i: InspectionEntity)
    ensures i in DueInspections(ins, logs + extra, now) <==>
      i in DueInspections(ins, logs, now) && !Logged(extra, i.id)
  {
    if Logged(logs + extra, i.id) {
      var l :| l in logs + extra && l.inspectionId == i.id;
    }
    if Logged(extra, i.id) {
      var l :| l in extra && l.inspectionId == i.id;
      assert l in logs + extra;
    }
    if Logged(logs, i.id) {
      var l :| l in logs && l.inspectionId == i.id;
      assert l in logs + extra;
    }
  }

  /** A run of the reminder job that ends without an unlogged failure: once an
      attempt has been logged for every selected inspection, nothing is due
      at that time any more. */
  lemma LoggingEverySelectedClearsDueSet(ins: seq<InspectionEntity>, logs: seq<NotificationLog>,
                                         extra: seq<NotificationLog>, now: DateTime)
    requires forall i :: i in DueInspections(ins, logs, now) ==> Logged(extra, i.id)
    ensures DueInspections(ins, logs + extra, now) == []
  {
    var r := DueInspections(ins, logs + extra, now);
    if r != [] {
      MoreLogsFewerDue(ins, logs, extra, now, r[0]);
      assert false;
    }
  }
}

/** The repository copy of the reminder queries; its `CheckInspections` is
    the one modelled in `EmailService`. */
module EmailRepository {
  import opened Common
  import opened Entities
  import opened Store
  import opened EmailService

  /** `AddNotification(id)`: logs one attempt for inspection `id`, leaving
      `IsNotificationSent` at its default `false` and no message. */
  method AddNotification(db: Db, id: Guid, now: DateTime, logId: Guid)
    modifies db
    ensures db.notificationLogs == old(db.notificationLogs) + [NotificationLog(logId, id, now, false, None)]
    ensures forall i: InspectionEntity, t :: i.id == id ==> !Due(i, db.notificationLogs, t)
    ensures db.patients == old(db.patients) && db.doctors == old(db.doctors) && db.inspections == old(db.inspections)
    ensures db.specialities == old(db.specialities) && db.icd10s == old(db.icd10s)
    ensures db.diagnoses == old(db.diagnoses) && db.consultations == old(db.consultations)
    ensures db.comments == old(db.comments)
  {
    var log := NotificationLog(logId, id, now, false, None);
    db.notificationLogs := db.notificationLogs + [log];
    assert log in db.notificationLogs;
  }
}
