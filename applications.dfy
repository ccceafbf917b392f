/**
 * ApplicationController: job applications bound to an existing vacancy, with
 * an optional résumé stored on the public disk under
 * `applications/resumes/`, a download by file name, and deletion.
 */
module Applications {
  import opened Support
  import opened Schema

  const ResumeDir: string := "applications/resumes/"

  /** The request fields `store` reads. */
  datatype ApplicationInput = ApplicationInput(
    name: Option<string>, email: Option<string>, phone: Option<string>, message: Option<string>,
    resume: Option<Upload>, privacyAgreement: Option<string>)

  /** A required string of at most 255 characters. */
  predicate ShortText(v: Option<string>) {
    v.Some? && Required(v.value) && |v.value| <= 255
  }

  /** The rule set of `store`; `phone` and `message` are nullable strings and always pass. */
  predicate Accepts(input: ApplicationInput) {
    && ShortText(input.name)
    && ShortText(input.email)
    && (input.resume.Some? ==> input.resume.value.acceptable)
    && input.privacyAgreement.Some? && AcceptedValue(input.privacyAgreement.value)
  }

  /** `$request->file('resume')->store('applications/resumes', 'public')`. */
  function ResumePath(hashName: string): (p: string)
    ensures p == ResumeDir + hashName && |p| == |ResumeDir| + |hashName|
  {
    ResumeDir + hashName
  }

  /** The row `store` creates for an accepted request. */
  function NewApplication(vacancy: Id, input: ApplicationInput): (a: Application)
    requires Accepts(input)
    ensures a.vacancyId == vacancy && a.name == input.name.value && a.email == input.email.value
    ensures a.phone == input.phone && a.message == input.message
    ensures a.privacyAgreement
    ensures a.resume.Some? <==> input.resume.Some?
    ensures input.resume.Some? ==> a.resume == Some(ResumePath(input.resume.value.hashName))
  {
    AcceptedIsTrue(input.privacyAgreement.value);
    Application(vacancy, input.name.value, input.email.value, input.phone, input.message,
      if input.resume.Some? then Some(ResumePath(input.resume.value.hashName)) else None,
      BooleanOf(input.privacyAgreement))
  }

  /**
   * `store`: an unknown vacancy is a 404, then a rule violation a 422, then
   * an address `validEmail` rejects a 422 on `email`; none of them changes
   * anything. An accepted request stores the résumé, if one was uploaded,
   * and creates exactly one application bound to the vacancy.
   */
  method Store(db: Database, disk: Disk, vacancy: Id, input: ApplicationInput, validEmail: string -> bool)
    returns (r: Result<Id>)
    requires db.Valid()
    modifies db`applications, disk
    ensures db.Valid()
    ensures vacancy !in old(db.vacancies.rows) ==> r == Err(NotFound(NoQueryResults))
    ensures vacancy in old(db.vacancies.rows) && !Accepts(input) ==> r == Err(ValidationFailed)
    ensures vacancy in old(db.vacancies.rows) && Accepts(input) && !validEmail(input.email.value) ==>
      r == Err(Invalid("email"))
    ensures r.Err? ==> db.applications == old(db.applications) && disk.files == old(disk.files)
    ensures r.Ok? <==> vacancy in old(db.vacancies.rows) && Accepts(input) && validEmail(input.email.value)
    ensures r.Ok? ==>
      && r.value == old(db.applications.next)
      && db.applications == old(db.applications).Insert(NewApplication(vacancy, input)).0
      && disk.files == old(disk.files) + (if input.resume.Some? then {ResumePath(input.resume.value.hashName)} else {})
  {
    if vacancy !in db.vacancies.rows {
      return Err(NotFound(NoQueryResults));
    }
    if !Accepts(input) {
      return Err(ValidationFailed);
    }
    if !validEmail(input.email.value) {
      return Err(Invalid("email"));
    }
    var stored := if input.resume.Some? then {ResumePath(input.resume.value.hashName)} else {};
    var id := Create(db, disk, NewApplication(vacancy, input), stored);
    r := Ok(id);
  }

  /** The accepted path of `store`: insert the row, then record the stored résumé, if any, on the disk. */
  method Create(db: Database, disk: Disk, row: Application, stored: set<string>) returns (id: Id)
    requires db.Valid() && row.vacancyId in db.vacancies.rows
    modifies db`applications, disk
    ensures db.Valid()
    ensures id == old(db.applications.next)
    ensures db.applications == old(db.applications).Insert(row).0
    ensures disk.files == old(disk.files) + stored
  {
    var ins := db.applications.Insert(row);
    db.SetApplications(ins.0);
    disk.files := disk.files + stored;
    id := ins.1;
  }

  /**
   * `download($filename)`: the file `applications/resumes/<filename>` with
   * `filename` as its download name, or a 404 when the disk lacks it.
   */
  function Download(disk: set<string>, filename: string): (r: Result<(string, string)>)
    ensures r.Ok? <==> ResumeDir + filename in disk
    ensures r.Err? ==> r.error == NotFound("File not found")
    ensures r.Ok? ==> r.value.0 == ResumeDir + filename && r.value.1 == filename
  {
    var path := ResumePath(filename);
    if path in disk then Ok((path, filename)) else Err(NotFound("File not found"))
  }

  /** A résumé that `store` saved is downloadable by its stored name. */
  lemma StoredResumeDownloads(disk: set<string>, u: Upload)
    ensures Download(disk + {ResumePath(u.hashName)}, u.hashName) == Ok((ResumePath(u.hashName), u.hashName))
  {
  }

  /** `destroy`: an unknown id is a 404; otherwise exactly that application is removed (its résumé stays on disk). */
  method Destroy(db: Database, id: Id) returns (r: Result<()>)
    requires db.Valid()
    modifies db`applications
    ensures db.Valid()
    ensures r.Ok? <==> id in old(db.applications.rows)
    ensures r.Err? ==> r.error == NotFound(NoQueryResults) && db.applications == old(db.applications)
    ensures r.Ok? ==> db.applications == old(db.applications).(rows := old(db.applications.rows) - {id})
  {
    if id !in db.applications.rows {
      return Err(NotFound(NoQueryResults));
    }
    db.SetApplications(db.applications.(rows := db.applications.rows - {id}));
    r := Ok(());
  }
}
