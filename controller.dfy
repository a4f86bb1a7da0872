/** The doctor endpoints: registration, login and the profile change. Each
    runs its checks one after another, recording a model error per failed
    check and clearing the `isValid` flag, and only touches the store and the
    token registry once every check has passed. `ModelState.IsValid` (the
    verdict of the attribute validation done while binding the request) is
    the input `modelStateValid`; `DateTime.UtcNow` is `now`. */
module DoctorController {
  import opened Common
  import opened Entities
  import opened Store
  import opened RegexPatterns
  import DoctorRepository
  import DoctorService
  import TokenService

  /** The model errors the endpoints add, one per failed check. */
  datatype ModelError = PhoneFormat | EmailFormat | EmailTaken | PasswordFormat | GenderValue | BirthdayInFuture

  /** The answer of an endpoint: 200 with an optional token, 400 with the
      recorded model errors, 400 after a failed login, 500 for an unknown
      speciality, 401, or an unhandled exception. */
  datatype Response =
    | Ok(token: Option<string>)
    | Invalid(errors: seq<ModelError>)
    | LoginFailed
    | SpecialityMissing
    | Unauthorized
    | Crash(fault: Fault)

  /** A phone is checked only when it is neither null nor empty. */
  predicate PhoneRejected(phone: Option<string>) {
    phone.Some? && phone.value != "" && !Phone(phone.value)
  }

  predicate GenderRejected(g: Gender) {
    !(g.Male? || g.Female?)
  }

  /** A null birthday is never later than now. */
  predicate BirthdayRejected(b: Option<DateTime>, now: DateTime) {
    b.Some? && b.value > now
  }

  // ---------------------------------------------------------------------
  // Register

  /** The error a check adds: its key when it failed, nothing otherwise. */
  function Flag(failed: bool, key: ModelError): seq<ModelError> {
    if failed then [key] else []
  }

  /** One check of an endpoint: when it failed, its model error is added and
      `isValid` is cleared. */
  method Check(failed: bool, key: ModelError, isValid: bool, errors: seq<ModelError>)
    returns (isValid': bool, errors': seq<ModelError>)
    ensures errors' == errors + Flag(failed, key)
    ensures isValid' <==> isValid && !failed
  {
    isValid', errors' := isValid, errors;
    if failed {
      errors' := errors' + [key];
      isValid' := false;
    }
  }

  /** The errors `Register` adds to the initially empty model state, in the
      order of its checks, given which checks failed. */
  function RegisterErrors(phoneBad: bool, emailBad: bool, taken: bool, passwordBad: bool, genderBad: bool,
                          birthdayBad: bool): seq<ModelError>
  {
    [] + Flag(phoneBad, PhoneFormat) + Flag(emailBad, EmailFormat) + Flag(taken, EmailTaken)
    + Flag(passwordBad, PasswordFormat) + Flag(genderBad, GenderValue) + Flag(birthdayBad, BirthdayInFuture)
  }

  /** Each key is recorded exactly when its check failed, at most once, and
      nothing is recorded exactly when every check passed. */
  lemma RegisterErrorsExact(phoneBad: bool, emailBad: bool, taken: bool, passwordBad: bool, genderBad: bool,
                            birthdayBad: bool)
    ensures var r := RegisterErrors(phoneBad, emailBad, taken, passwordBad, genderBad, birthdayBad);
      && (PhoneFormat in r <==> phoneBad)
      && (EmailFormat in r <==> emailBad)
      && (EmailTaken in r <==> taken)
      && (PasswordFormat in r <==> passwordBad)
      && (GenderValue in r <==> genderBad)
      && (BirthdayInFuture in r <==> birthdayBad)
      && (r == [] <==> !(phoneBad || emailBad || taken || passwordBad || genderBad || birthdayBad))
  {
  }

  /** The errors of `Register` for a request. */
  function RegisterRequestErrors(doctors: seq<DoctorEntity>, m: DoctorService.DoctorRegisterModel, now: DateTime)
    : seq<ModelError>
  {
    RegisterErrors(PhoneRejected(m.phone), !Email(m.email), !DoctorRepository.IsEmailUnique(doctors, m.email),
                   !Password(m.password), GenderRejected(m.gender), BirthdayRejected(m.birthday, now))
  }

  /** The answer of `Register`: the speciality is looked up after the
      validation and before its verdict, so an unknown speciality answers 500
      whatever the other checks found. */
  function RegisterOutcome(doctors: seq<DoctorEntity>, specialities: seq<SpecialityEntity>,
                           m: DoctorService.DoctorRegisterModel, modelStateValid: bool, now: DateTime, jwt: string)
    : (r: Response)
    ensures r.SpecialityMissing? <==> !DoctorService.IsSpecialityExisting(specialities, m)
    ensures r.Invalid? ==> r.errors == RegisterRequestErrors(doctors, m, now)
    ensures r.Ok? ==> r.token == Some(jwt)
    ensures r.Ok? || r.Invalid? || r.SpecialityMissing?
  {
    if !DoctorService.IsSpecialityExisting(specialities, m) then SpecialityMissing
    else if !modelStateValid || RegisterRequestErrors(doctors, m, now) != [] then
      Invalid(RegisterRequestErrors(doctors, m, now))
    else Ok(Some(jwt))
  }

  /** Registration succeeds exactly when the speciality exists and every
      check passes; a null or empty phone passes whatever it is. */
  lemma RegisterAccepts(doctors: seq<DoctorEntity>, specialities: seq<SpecialityEntity>,
                        m: DoctorService.DoctorRegisterModel, modelStateValid: bool, now: DateTime, jwt: string)
    ensures RegisterOutcome(doctors, specialities, m, modelStateValid, now, jwt).Ok? <==>
      && (exists s :: s in specialities && s.id == m.speciality)
      && modelStateValid
      && (m.phone.None? || m.phone.value == "" || Phone(m.phone.value))
      && Email(m.email)
      && (forall d :: d in doctors ==> d.email != m.email)
      && Password(m.password)
      && (m.gender == Male || m.gender == Female)
      && (m.birthday.None? || m.birthday.value <= now)
  {
    RegisterErrorsExact(PhoneRejected(m.phone), !Email(m.email), !DoctorRepository.IsEmailUnique(doctors, m.email),
                        !Password(m.password), GenderRejected(m.gender), BirthdayRejected(m.birthday, now));
  }

  /** The validation part of `Register`: every check runs, each failure
      adds its model error and clears `isValid`. */
  method ValidateRegistration(doctors: seq<DoctorEntity>, m: DoctorService.DoctorRegisterModel,
                              modelStateValid: bool, now: DateTime)
    returns (isValid: bool, errors: seq<ModelError>)
    ensures errors == RegisterRequestErrors(doctors, m, now)
    ensures isValid <==> modelStateValid && errors == []
  {
    isValid, errors := Check(PhoneRejected(m.phone), PhoneFormat, modelStateValid, []);
    isValid, errors := Check(!Email(m.email), EmailFormat, isValid, errors);
    isValid, errors := Check(!DoctorRepository.IsEmailUnique(doctors, m.email), EmailTaken, isValid, errors);
    isValid, errors := Check(!Password(m.password), PasswordFormat, isValid, errors);
    isValid, errors := Check(GenderRejected(m.gender), GenderValue, isValid, errors);
    isValid, errors := Check(BirthdayRejected(m.birthday, now), BirthdayInFuture, isValid, errors);
    RegisterErrorsExact(PhoneRejected(m.phone), !Email(m.email), !DoctorRepository.IsEmailUnique(doctors, m.email),
                        !Password(m.password), GenderRejected(m.gender), BirthdayRejected(m.birthday, now));
  }

  /** `Register(model)`: on success the doctor is stored and the token issued
      for it is registered for its id; otherwise neither the doctor table nor
      the token registry changes. `newId` is the key the database generates
      and `jwt` the token signed for it. */
  method Register(db: Db, ts: TokenService.TokenService, m: DoctorService.DoctorRegisterModel,
                  modelStateValid: bool, now: DateTime, newId: Guid, jwt: string)
    returns (resp: Response)
    modifies db, ts
    ensures resp == RegisterOutcome(old(db.doctors), old(db.specialities), m, modelStateValid, now, jwt)
    ensures resp.Ok? ==>
      db.doctors == old(db.doctors) +
        [DoctorEntity(newId, now, m.name, m.birthday, m.gender, m.speciality, m.email, m.password, m.phone)]
    ensures resp.Ok? ==> ts.tokens == old(ts.tokens)[newId := jwt]
    ensures !resp.Ok? ==> db.doctors == old(db.doctors) && ts.tokens == old(ts.tokens)
    ensures db.patients == old(db.patients) && db.inspections == old(db.inspections)
    ensures db.specialities == old(db.specialities) && db.icd10s == old(db.icd10s)
    ensures db.diagnoses == old(db.diagnoses) && db.consultations == old(db.consultations)
    ensures db.comments == old(db.comments) && db.notificationLogs == old(db.notificationLogs)
  {
    var isValid, errors := ValidateRegistration(db.doctors, m, modelStateValid, now);
    if !DoctorService.IsSpecialityExisting(db.specialities, m) {
      return SpecialityMissing;
    }
    if !isValid {
      return Invalid(errors);
    }
    var token, id := DoctorService.Register(db, m, now, newId, jwt);
    ts.AddToken(id, token);
    resp := Ok(Some(token));
  }

  // ---------------------------------------------------------------------
  // Login

  /** `Login(credentials)`: the empty token answers 400 and registers
      nothing; any other token is registered for the doctor it was issued
      to. */
  method Login(db: Db, ts: TokenService.TokenService, c: DoctorService.LoginCredentials, jwt: string)
    returns (resp: Response)
    modifies ts
    ensures var (token, id) := DoctorService.Login(db.doctors, c, jwt);
      if token == "" then resp == LoginFailed && ts.tokens == old(ts.tokens)
      else resp == Ok(Some(token)) && ts.tokens == old(ts.tokens)[id := token]
    ensures resp.Ok? ==>
      exists d :: d in db.doctors && DoctorService.Matches(d, c) && ts.tokens == old(ts.tokens)[d.id := jwt]
  {
    var (token, id) := DoctorService.Login(db.doctors, c, jwt);
    if token == "" {
      return LoginFailed;
    }
    ts.AddToken(id, token);
    resp := Ok(Some(token));
  }

  // ---------------------------------------------------------------------
  // ChangeProfile

  /** The errors `ChangeProfile` adds to the initially empty model state, in
      the order of its checks, given which checks failed: `takenByOther` says the email is held by some
      doctor and differs from the caller's own. There is no password check on
      this path, and birthday comes before gender. */
  function ProfileErrors(phoneBad: bool, emailBad: bool, takenByOther: bool, birthdayBad: bool, genderBad: bool)
    : seq<ModelError>
  {
    [] + Flag(phoneBad, PhoneFormat) + Flag(emailBad, EmailFormat) + Flag(takenByOther, EmailTaken)
    + Flag(birthdayBad, BirthdayInFuture) + Flag(genderBad, GenderValue)
  }

  /** Each key is recorded exactly when its check failed, at most once, and
      nothing is recorded exactly when every check passed. */
  lemma ProfileErrorsExact(phoneBad: bool, emailBad: bool, takenByOther: bool, birthdayBad: bool, genderBad: bool)
    ensures var r := ProfileErrors(phoneBad, emailBad, takenByOther, birthdayBad, genderBad);
      && (PhoneFormat in r <==> phoneBad)
      && (EmailFormat in r <==> emailBad)
      && (EmailTaken in r <==> takenByOther)
      && PasswordFormat !in r
      && (BirthdayInFuture in r <==> birthdayBad)
      && (GenderValue in r <==> genderBad)
      && (r == [] <==> !(phoneBad || emailBad || takenByOther || birthdayBad || genderBad))
  {
  }

  /** The email check of `ChangeProfile`: `Some(true)` when another doctor's
      email is the submitted one, `Some(false)` when the check passes, and
      `None` when the email is taken and the caller's row is missing, which
      the check dereferences as null. */
  function TakenByOther(doctors: seq<DoctorEntity>, userId: Guid, email: string): (r: Option<bool>)
    ensures r.None? <==>
      (exists d :: d in doctors && d.email == email) && (forall d :: d in doctors ==> d.id != userId)
    ensures r == Some(true) ==>
      && (exists d :: d in doctors && d.email == email)
      && DoctorService.GetDoctorById(doctors, userId).value.email != email
  {
    if DoctorRepository.IsEmailUnique(doctors, email) then Some(false)
    else match DoctorService.GetDoctorById(doctors, userId)
      case None => None
      case Some(me) => Some(me.email != email)
  }

  /** What `ChangeProfile` answers for the identified caller `userId`. */
  function ProfileOutcome(doctors: seq<DoctorEntity>, userId: Guid, m: DoctorService.DoctorEditModel,
                          modelStateValid: bool, now: DateTime): (r: Response)
    ensures r.Crash? <==> TakenByOther(doctors, userId, m.email).None?
    ensures r.Crash? ==> r.fault == NullReference
    ensures r.Ok? ==> r.token.None?
    ensures r.Ok? || r.Invalid? || r.Crash?
  {
    match TakenByOther(doctors, userId, m.email)
    case None => Crash(NullReference)
    case Some(taken) =>
      var errs := ProfileErrors(PhoneRejected(m.phone), !Email(m.email), taken, BirthdayRejected(m.birthday, now),
                                GenderRejected(m.gender));
      if !modelStateValid || errs != [] then Invalid(errs) else Ok(None)
  }

  /** A caller may keep their own email: the email check passes when the
      submitted email is the caller's current one, and otherwise exactly when
      no doctor holds it. */
  lemma OwnEmailIsNotTaken(doctors: seq<DoctorEntity>, userId: Guid, m: DoctorService.DoctorEditModel,
                           modelStateValid: bool, now: DateTime)
    requires exists d :: d in doctors && d.id == userId
    ensures var r := ProfileOutcome(doctors, userId, m, modelStateValid, now);
      && (r.Ok? || r.Invalid?)
      && (r.Invalid? ==> (EmailTaken in r.errors <==>
           m.email != DoctorService.GetDoctorById(doctors, userId).value.email
           && exists d :: d in doctors && d.email == m.email))
      && (r.Ok? <==>
            (modelStateValid && !PhoneRejected(m.phone) && Email(m.email)
             && !BirthdayRejected(m.birthday, now) && !GenderRejected(m.gender)
             && (m.email == DoctorService.GetDoctorById(doctors, userId).value.email
                 || forall d :: d in doctors ==> d.email != m.email)))
  {
    var me := DoctorService.GetDoctorById(doctors, userId);
    assert me.Some?;
    var t := TakenByOther(doctors, userId, m.email);
    assert t.Some?;
    ProfileErrorsExact(PhoneRejected(m.phone), !Email(m.email), t.value, BirthdayRejected(m.birthday, now),
                       GenderRejected(m.gender));
  }

  /** The validation part of `ChangeProfile` for the identified caller. */
  method ValidateProfile(doctors: seq<DoctorEntity>, userId: Guid, m: DoctorService.DoctorEditModel,
                         modelStateValid: bool, now: DateTime)
    returns (r: Response)
    ensures r == ProfileOutcome(doctors, userId, m, modelStateValid, now)
  {
    var isValid, errors := Check(PhoneRejected(m.phone), PhoneFormat, modelStateValid, []);
    isValid, errors := Check(!Email(m.email), EmailFormat, isValid, errors);
    var takenByOther := false;
    if !DoctorRepository.IsEmailUnique(doctors, m.email) {
      var doctor := DoctorService.GetDoctorById(doctors, userId);
      if doctor.None? {
        return Crash(NullReference);
      }
      takenByOther := doctor.value.email != m.email;
    }
    isValid, errors := Check(takenByOther, EmailTaken, isValid, errors);
    isValid, errors := Check(BirthdayRejected(m.birthday, now), BirthdayInFuture, isValid, errors);
    isValid, errors := Check(GenderRejected(m.gender), GenderValue, isValid, errors);
    ProfileErrorsExact(PhoneRejected(m.phone), !Email(m.email), takenByOther,
                       BirthdayRejected(m.birthday, now), GenderRejected(m.gender));
    assert TakenByOther(doctors, userId, m.email) == Some(takenByOther);
    if !isValid {
      return Invalid(errors);
    }
    r := Ok(None);
  }

  /** `ChangeProfile(model)`: the caller is whoever the registry finds
      holding the request's token (any holder, when several do). With no
      holder other than the empty Guid the answer is 401 and nothing is
      validated; otherwise the answer is `ProfileOutcome` for that caller and
      the profile is edited only when it is 200. */
  method ChangeProfile(db: Db, ts: TokenService.TokenService, token: string, m: DoctorService.DoctorEditModel,
                       modelStateValid: bool, now: DateTime)
    returns (resp: Response)
    modifies db
    ensures !(exists u :: u != Empty && ts.Holds(u, token)) ==> resp == Unauthorized
    ensures resp.Unauthorized? ==> db.doctors == old(db.doctors)
    ensures !resp.Unauthorized? ==> exists u ::
      && u != Empty && ts.Holds(u, token)
      && resp == ProfileOutcome(old(db.doctors), u, m, modelStateValid, now)
      && db.doctors == (if resp.Ok? then DoctorService.EditedDoctors(old(db.doctors), u, m) else old(db.doctors))
    ensures db.patients == old(db.patients) && db.inspections == old(db.inspections)
    ensures db.specialities == old(db.specialities) && db.icd10s == old(db.icd10s)
    ensures db.diagnoses == old(db.diagnoses) && db.consultations == old(db.consultations)
    ensures db.comments == old(db.comments) && db.notificationLogs == old(db.notificationLogs)
  {
    var userId := ts.GetUserIdByToken(token);
    if userId == Empty {
      return Unauthorized;
    }
    assert ts.Holds(userId, token);
    ghost var doctors := db.doctors;
    resp := ValidateProfile(db.doctors, userId, m, modelStateValid, now);
    if resp.Ok? {
      DoctorService.EditProfile(db, userId, m);
    }
    assert resp == ProfileOutcome(doctors, userId, m, modelStateValid, now);
    assert db.doctors == (if resp.Ok? then DoctorService.EditedDoctors(doctors, userId, m) else doctors);
    assert ts.Holds(userId, token);
  }
}
