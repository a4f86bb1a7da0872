/** The doctor table: registration, credential lookups and email
    uniqueness. */
module DoctorRepository {
  import opened Common
  import opened Entities
  import opened Store

  /** `Register(doctorEntity)`: stores the given entity as it is. */
  method Register(db: Db, e: DoctorEntity)
    modifies db
    ensures db.doctors == old(db.doctors) + [e]
    ensures db.patients == old(db.patients) && db.inspections == old(db.inspections)
    ensures db.specialities == old(db.specialities) && db.icd10s == old(db.icd10s)
    ensures db.diagnoses == old(db.diagnoses) && db.consultations == old(db.consultations)
    ensures db.comments == old(db.comments) && db.notificationLogs == old(db.notificationLogs)
  {
    db.doctors := db.doctors + [e];
  }

  /** `GetByCredentials(email, password)`: the first doctor whose stored email
      equals the lower-cased input and whose password equals the input. The
      stored email itself is not lower-cased. */
  function GetByCredentials(doctors: seq<DoctorEntity>, email: string, password: string): (r: Option<DoctorEntity>)
    ensures r.Some? ==> r.value in doctors && r.value.email == Lower(email) && r.value.password == password
    ensures r.None? <==> forall d :: d in doctors ==> d.email != Lower(email) || d.password != password
  {
    First(doctors, (d: DoctorEntity) => d.email == Lower(email) && d.password == password)
  }

  /** `IsEmailUnique(email)`: no stored email equals `email`, compared
      exactly (case matters). */
  function IsEmailUnique(doctors: seq<DoctorEntity>, email: string): (r: bool)
    ensures r <==> forall d :: d in doctors ==> d.email != email
  {
    First(doctors, (d: DoctorEntity) => d.email == email).None?
  }

  /** Email uniqueness is case-sensitive: when the table holds only the
      lower-cased form of an email that has a capital letter, that email
      still counts as unique, while its lower-cased form does not. */
  lemma UniquenessIsCaseSensitive(doctors: seq<DoctorEntity>, email: string)
    requires Lower(email) != email
    requires forall d :: d in doctors ==> d.email == Lower(email)
    ensures IsEmailUnique(doctors, email)
    ensures doctors != [] ==> !IsEmailUnique(doctors, Lower(email))
  {
    if doctors != [] {
      assert doctors[0] in doctors;
    }
  }
}

/** The doctor service: registration with a token, login, the lookups the
    controller's checks use, and the profile. */
module DoctorService {
  import opened Common
  import opened Entities
  import opened Store
  import DoctorRepository

  datatype DoctorRegisterModel = DoctorRegisterModel(
    name: string,
    password: string,
    email: string,
    birthday: Option<DateTime>,
    gender: Gender,
    phone: Option<string>,
    speciality: Guid)

  datatype LoginCredentials = LoginCredentials(email: string, password: string)

  datatype DoctorEditModel = DoctorEditModel(
    email: string,
    name: string,
    birthday: Option<DateTime>,
    gender: Gender,
    phone: Option<string>)

  /** `Register(model)`: stores one doctor built from the model and returns
      the token issued for it with its id. The entity gets `new Guid()`, which
      the database context replaces by a generated key (`newId`);
      `DateTime.UtcNow` is `now` and the signed JWT for the new id is `jwt`. */
  method Register(db: Db, m: DoctorRegisterModel, now: DateTime, newId: Guid, jwt: string)
    returns (token: string, id: Guid)
    modifies db
    ensures token == jwt && id == newId
    ensures db.doctors == old(db.doctors) +
      [DoctorEntity(newId, now, m.name, m.birthday, m.gender, m.speciality, m.email, m.password, m.phone)]
    ensures db.patients == old(db.patients) && db.inspections == old(db.inspections)
    ensures db.specialities == old(db.specialities) && db.icd10s == old(db.icd10s)
    ensures db.diagnoses == old(db.diagnoses) && db.consultations == old(db.consultations)
    ensures db.comments == old(db.comments) && db.notificationLogs == old(db.notificationLogs)
  {
    var e := DoctorEntity(newId, now, m.name, m.birthday, m.gender, m.speciality, m.email, m.password, m.phone);
    DoctorRepository.Register(db, e);
    token, id := jwt, e.id;
  }

  /** The login rule: emails equal ignoring case, passwords equal exactly. */
  predicate Matches(d: DoctorEntity, c: LoginCredentials) {
    Lower(d.email) == Lower(c.email) && d.password == c.password
  }

  /** `Login(credentials)`: the token signed for the first matching doctor
      (`jwt`) with that doctor's id, or the empty token and the empty Guid. */
  function Login(doctors: seq<DoctorEntity>, c: LoginCredentials, jwt: string): (r: (string, Guid))
    ensures (exists d :: d in doctors && Matches(d, c)) ==>
      r.0 == jwt && exists d :: d in doctors && Matches(d, c) && d.id == r.1
    ensures !(exists d :: d in doctors && Matches(d, c)) ==> r == ("", Empty)
  {
    match First(doctors, (d: DoctorEntity) => Matches(d, c))
    case Some(d) => (jwt, d.id)
    case None => ("", Empty)
  }

  /** `IsSpecialityExisting(model)`. */
  function IsSpecialityExisting(specialities: seq<SpecialityEntity>, m: DoctorRegisterModel): (r: bool)
    ensures r <==> exists s :: s in specialities && s.id == m.speciality
  {
    First(specialities, (s: SpecialityEntity) => s.id == m.speciality).Some?
  }

  /** `GetDoctorById(id)`. */
  function GetDoctorById(doctors: seq<DoctorEntity>, id: Guid): (r: Option<DoctorEntity>)
    ensures r.Some? ==> r.value in doctors && r.value.id == id
    ensures r.None? <==> forall d :: d in doctors ==> d.id != id
  {
    First(doctors, (d: DoctorEntity) => d.id == id)
  }

  /** `GetProfile(userId)`: the doctor's public fields; a missing doctor is
      dereferenced as null. */
  function GetProfile(doctors: seq<DoctorEntity>, userId: Guid): (r: Result<DoctorModel>)
    ensures r.Failure? <==> forall d :: d in doctors ==> d.id != userId
    ensures r.Failure? ==> r.fault == NullReference
    ensures r.Success? ==> exists d :: d in doctors && d.id == userId && r.value == ToDoctorModel(d)
  {
    match GetDoctorById(doctors, userId)
    case Some(d) => Success(ToDoctorModel(d))
    case None => Failure(NullReference)
  }

  /** The table after `EditProfile(id, model)`: the bulk update sets email,
      name, birthday, gender and phone of every row with that id and touches
      nothing else. */
  function EditedDoctors(doctors: seq<DoctorEntity>, id: Guid, m: DoctorEditModel): (r: seq<DoctorEntity>)
    ensures |r| == |doctors|
    ensures forall k :: 0 <= k < |r| ==>
      (r[k].id == doctors[k].id && r[k].password == doctors[k].password
       && r[k].speciality == doctors[k].speciality && r[k].createTime == doctors[k].createTime)
    ensures forall k :: 0 <= k < |r| && doctors[k].id != id ==> r[k] == doctors[k]
    ensures forall k :: 0 <= k < |r| && doctors[k].id == id ==>
      (r[k].email == m.email && r[k].name == m.name && r[k].birthday == m.birthday
       && r[k].gender == m.gender && r[k].phone == m.phone)
  {
    seq(|doctors|, k requires 0 <= k < |doctors| =>
      if doctors[k].id == id
      then doctors[k].(email := m.email, name := m.name, birthday := m.birthday, gender := m.gender, phone := m.phone)
      else doctors[k])
  }

  /** `EditProfile(id, model)`. */
  method EditProfile(db: Db, id: Guid, m: DoctorEditModel)
    modifies db
    ensures db.doctors == EditedDoctors(old(db.doctors), id, m)
    ensures db.patients == old(db.patients) && db.inspections == old(db.inspections)
    ensures db.specialities == old(db.specialities) && db.icd10s == old(db.icd10s)
    ensures db.diagnoses == old(db.diagnoses) && db.consultations == old(db.consultations)
    ensures db.comments == old(db.comments) && db.notificationLogs == old(db.notificationLogs)
  {
    db.doctors := EditedDoctors(db.doctors, id, m);
  }

  /** After an edit the doctor's profile shows the new values and keeps its
      id, speciality and creation time. */
  lemma EditedProfile(doctors: seq<DoctorEntity>, id: Guid, m: DoctorEditModel)
    requires exists d :: d in doctors && d.id == id
    ensures var p := GetProfile(EditedDoctors(doctors, id, m), id);
      && p.Success?
      && p.value.email == m.email && p.value.name == m.name && p.value.birthday == m.birthday
      && p.value.gender == m.gender && p.value.phone == m.phone
      && p.value.speciality == GetProfile(doctors, id).value.speciality
      && p.value.createTime == GetProfile(doctors, id).value.createTime
  {
    var e := EditedDoctors(doctors, id, m);
    var i := IndexOfId(doctors, id);
    SameIdPositions(doctors, e, id);
    assert i < |doctors| by {
      var d :| d in doctors && d.id == id;
      assert GetDoctorById(doctors, id).Some?;
    }
    assert GetProfile(doctors, id) == Success(ToDoctorModel(doctors[i]));
    assert GetProfile(e, id) == Success(ToDoctorModel(e[i]));
    assert e[i].id == id;
  }

  /** The position of the first row with that id. */
  function IndexOfId(t: seq<DoctorEntity>, id: Guid): (i: nat)
    ensures i <= |t|
    ensures i < |t| ==> t[i].id == id
    ensures forall j :: 0 <= j < i ==> t[j].id != id
    ensures i < |t| ==> GetDoctorById(t, id) == Some(t[i])
    ensures i == |t| ==> GetDoctorById(t, id).None?
  {
    if t == [] then 0
    else if t[0].id == id then 0
    else
      var i := 1 + IndexOfId(t[1..], id);
      assert forall j :: 1 <= j < |t| ==> t[j] == t[1..][j - 1];
      i
  }

  lemma SameIdPositions(a: seq<DoctorEntity>, b: seq<DoctorEntity>, id: Guid)
    requires |a| == |b| && forall k :: 0 <= k < |a| ==> a[k].id == b[k].id
    ensures IndexOfId(a, id) == IndexOfId(b, id)
  {
  }
}
