/**
 * DepartmentController: departments with unique names of at most 20
 * characters, and a delete that is refused while vacancies still use the
 * department.
 */
module Departments {
  import opened Support
  import opened Schema

  /**
   * `required|string|max:20|unique:departments,name[,<except>]`: a non-blank
   * name of at most 20 characters that no department other than `except`
   * holds.
   */
  predicate NameAccepted(departments: map<Id, Department>, name: string, except: Option<Id>) {
    && Required(name)
    && |name| <= 20
    && forall d :: d in departments && Some(d) != except ==> departments[d].name != name
  }

  /** `store` rejects the name of any existing department. */
  lemma {:induction false} StoreRejectsTakenName(departments: map<Id, Department>, d: Id)
    requires d in departments
    ensures !NameAccepted(departments, departments[d].name, None)
  {
    assert Some(d) != None;
  }

  /**
   * `update` accepts a department's own current name, as long as it passes
   * the length rules, because names are unique.
   */
  lemma OwnNameAccepted(departments: Table<Department>, id: Id)
    requires DepartmentsValid(departments) && id in departments.rows
    requires Required(departments.rows[id].name) && |departments.rows[id].name| <= 20
    ensures NameAccepted(departments.rows, departments.rows[id].name, Some(id))
  {
    forall d | d in departments.rows && Some(d) != Some(id)
      ensures departments.rows[d].name != departments.rows[id].name
    {
      assert d != id;
    }
  }

  /**
   * `store`: a rejected name is a 422 and changes nothing; an accepted one
   * creates exactly one department with that name.
   */
  method Store(db: Database, name: Option<string>) returns (r: Result<Id>)
    requires db.Valid()
    modifies db`departments
    ensures db.Valid()
    ensures r.Ok? <==> name.Some? && NameAccepted(old(db.departments.rows), name.value, None)
    ensures r.Err? ==> r.error == ValidationFailed && db.departments == old(db.departments)
    ensures r.Ok? ==>
      && r.value == old(db.departments.next)
      && db.departments == old(db.departments).Insert(Department(name.value)).0
  {
    if name.None? || !NameAccepted(db.departments.rows, name.value, None) {
      return Err(ValidationFailed);
    }
    var ins := db.departments.Insert(Department(name.value));
    db.SetDepartments(ins.0);
    r := Ok(ins.1);
  }

  /**
   * `update`: an unknown id is a 404; a name held by another department, too
   * long or blank is a 422; otherwise only this department's name changes.
   */
  method Update(db: Database, id: Id, name: Option<string>) returns (r: Result<Id>)
    requires db.Valid()
    modifies db`departments
    ensures db.Valid()
    ensures id !in old(db.departments.rows) ==> r == Err(NotFound(NoQueryResults))
    ensures id in old(db.departments.rows) ==>
      (r.Ok? <==> name.Some? && NameAccepted(old(db.departments.rows), name.value, Some(id)))
    ensures id in old(db.departments.rows) && r.Err? ==> r.error == ValidationFailed
    ensures r.Err? ==> db.departments == old(db.departments)
    ensures r.Ok? ==> r.value == id && db.departments == old(db.departments).Put(id, Department(name.value))
  {
    if id !in db.departments.rows {
      return Err(NotFound(NoQueryResults));
    }
    if name.None? || !NameAccepted(db.departments.rows, name.value, Some(id)) {
      return Err(ValidationFailed);
    }
    var departments := db.departments.Put(id, Department(name.value));
    db.SetDepartments(departments);
    r := Ok(id);
  }

  /** The vacancies that reference department `d`. */
  function UsedBy(vacancies: map<Id, Vacancy>, d: Id): (r: set<Id>)
    ensures forall v :: v in r <==> v in vacancies && vacancies[v].departmentId == d
  {
    set v | v in vacancies && vacancies[v].departmentId == d
  }

  /**
   * `destroy`: an unknown id is a 404; a department that vacancies still use
   * is a 409 carrying their number, and nothing changes; otherwise exactly
   * that department is removed.
   */
  method Destroy(db: Database, id: Id) returns (r: Result<()>)
    requires db.Valid()
    modifies db`departments
    ensures db.Valid()
    ensures id !in old(db.departments.rows) ==> r == Err(NotFound(NoQueryResults))
    ensures id in old(db.departments.rows) && UsedBy(old(db.vacancies.rows), id) != {} ==>
      r == Err(Conflict(|UsedBy(old(db.vacancies.rows), id)|))
    ensures r.Err? ==> db.departments == old(db.departments)
    ensures r.Ok? <==> id in old(db.departments.rows) && UsedBy(old(db.vacancies.rows), id) == {}
    ensures r.Ok? ==> db.departments == old(db.departments).(rows := old(db.departments.rows) - {id})
  {
    if id !in db.departments.rows {
      return Err(NotFound(NoQueryResults));
    }
    var used := UsedBy(db.vacancies.rows, id);
    if |used| > 0 {
      return Err(Conflict(|used|));
    }
    assert used == {};
    var departments := db.departments.(rows := db.departments.rows - {id});
    db.SetDepartments(departments);
    r := Ok(());
  }
}
