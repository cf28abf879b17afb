/**
 * /api/schools (app/api/schools/route.js): GET lists the schools by name; POST adds a
 * school unless one with the same name already exists in the same city.
 */
module SchoolsRoute {
  import opened Wrappers
  import opened Text
  import opened Store
  import opened Sorting

  datatype SchoolForm = SchoolForm(name: Option<string>, city: Option<string>)

  datatype Response =
    | Created(school: School)  // 200 { school }
    | MissingFields            // 400: name and city are required
    | AlreadyExists            // 400: same name already in this city

  /** `orderBy: { name: 'asc' }` */
  function ByName(): (School, School) -> bool {
    (a: School, b: School) => Below(a.name, b.name)
  }

  lemma ByNameIsTotalPreorder()
    ensures TotalPreorder(ByName())
  {
    forall a: School, b: School ensures ByName()(a, b) || ByName()(b, a) {
      BelowTotal(a.name, b.name);
    }
    forall a: School, b: School, c: School | ByName()(a, b) && ByName()(b, c) ensures ByName()(a, c) {
      BelowTransitive(a.name, b.name, c.name);
    }
  }

  /** GET: every school, each once, in ascending name order. */
  function Get(schools: seq<School>): (r: seq<School>)
    ensures multiset(r) == multiset(schools)
    ensures Sorted(r, ByName())
  {
    ByNameIsTotalPreorder();
    SortSorted(schools, ByName());
    Sort(schools, ByName())
  }

  function SameSchool(schools: seq<School>, name: string, city: string): Option<School> {
    FindFirst(schools, (c: School) => c.name == name && c.city == city)
  }

  /** POST's decision: `None` lets the insert happen. */
  function Validate(form: SchoolForm, schools: seq<School>): (r: Option<Response>)
    ensures r.None? <==> Truthy(form.name) && Truthy(form.city) &&
                         forall i :: 0 <= i < |schools| ==> !(schools[i].name == form.name.value && schools[i].city == form.city.value)
    ensures r.Some? ==> (r.value == MissingFields <==> !Truthy(form.name) || !Truthy(form.city))
    ensures r.Some? ==> r.value == MissingFields || r.value == AlreadyExists
  {
    if !Truthy(form.name) || !Truthy(form.city) then Some(MissingFields)
    else
      FindFirstNone(schools, (c: School) => c.name == form.name.value && c.city == form.city.value);
      if SameSchool(schools, form.name.value, form.city.value).Some? then Some(AlreadyExists) else None
  }

  /** No two schools share both name and city. */
  predicate UniqueNameCity(schools: seq<School>) {
    forall i, j :: 0 <= i < j < |schools| ==> !(schools[i].name == schools[j].name && schools[i].city == schools[j].city)
  }

  /** The same name in another city is not a duplicate. */
  lemma SameNameOtherCityAccepted(schools: seq<School>, name: string, city: string)
    requires name != "" && city != ""
    requires forall i :: 0 <= i < |schools| && schools[i].name == name ==> schools[i].city != city
    ensures Validate(SchoolForm(Some(name), Some(city)), schools).None?
  {
  }

  method Post(db: Db, form: SchoolForm) returns (r: Response)
    requires db.Valid()
    modifies db
    ensures db.Valid()
    ensures Validate(form, old(db.schools)).Some? ==>
              r == Validate(form, old(db.schools)).value && db.schools == old(db.schools)
    ensures Validate(form, old(db.schools)).None? ==>
              var school := School(old(db.nextSchoolId), form.name.value, form.city.value);
              db.schools == old(db.schools) + [school] && r == Created(school)
    ensures db.users == old(db.users) && db.teams == old(db.teams) && db.members == old(db.members)
    ensures db.joinRequests == old(db.joinRequests) && db.matches == old(db.matches)
    ensures old(UniqueNameCity(db.schools)) ==> UniqueNameCity(db.schools)
  {
    if !Truthy(form.name) || !Truthy(form.city) {
      return MissingFields;
    }
    var name, city := form.name.value, form.city.value;
    var existingSchool := SameSchool(db.schools, name, city);
    if existingSchool.Some? {
      return AlreadyExists;
    }
    var school := db.CreateSchool(name, city);
    r := Created(school);
  }
}
