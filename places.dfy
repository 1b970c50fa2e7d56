/** /api/places. GET: staff read the places sorted by name. POST: an admin
    adds a place whose trimmed name no place has yet, ignoring case. */
module Places {

  import opened Common
  import opened Ordering
  import opened Store

  const NameRequired: string := "Le nom du lieu est requis"
  const PlaceExists: string := "Ce lieu existe déjà"

  predicate ByName(a: Place, b: Place)
  {
    StrLe(a.name, b.name)
  }

  lemma ByNameTotal()
    ensures TotalPreorder(ByName)
  {
    forall a: Place, b: Place ensures ByName(a, b) || ByName(b, a) {
      StrLeTotal(a.name, b.name);
    }
    forall a: Place, b: Place, c: Place | ByName(a, b) && ByName(b, c) ensures ByName(a, c) {
      StrLeTrans(a.name, b.name, c.name);
    }
  }

  /** GET: educators and admins only; every place, ordered by name. */
  method ListPlaces(db: Db, auth: Option<AuthUser>) returns (resp: Response<seq<Place>>)
    ensures auth.None? || !IsStaff(auth.value.role) ==> resp == Fail(403, NotAuthorized)
    ensures auth.Some? && IsStaff(auth.value.role) ==>
      resp.Ok? && resp.status == 200 &&
      SortedBy(resp.body, ByName) && multiset(resp.body) == multiset(db.places)
  {
    if auth.None? || !IsStaff(auth.value.role) {
      return Fail(403, NotAuthorized);
    }
    ByNameTotal();
    SortBySorted(db.places, ByName);
    resp := Ok(200, SortBy(db.places, ByName));
  }

  /** No two places have names equal up to case. */
  predicate NamesDistinct(places: seq<Place>)
  {
    forall i, j :: 0 <= i < j < |places| ==> !SameIgnoringCase(places[i].name, places[j].name)
  }

  /** The name field: trimmed when it is a string, else empty. */
  function TrimmedName(name: Option<string>): string
  {
    if name.Some? then Trim(name.value) else ""
  }

  /** POST: admin only; the trimmed name must be non-empty and must not equal
      an existing name ignoring case; the place is stored with the trimmed name,
      so distinct names up to case stay distinct. */
  method PostPlace(db: Db, auth: Option<AuthUser>, name: Option<string>) returns (resp: Response<Place>)
    modifies db`places, db`issued
    ensures auth.None? || auth.value.role != Admin ==> resp == Fail(403, NotAuthorized)
    ensures auth.Some? && auth.value.role == Admin ==>
      (TrimmedName(name) == "" ==> resp == Fail(400, NameRequired)) &&
      (TrimmedName(name) != "" && (exists p :: p in old(db.places) && SameIgnoringCase(p.name, TrimmedName(name))) ==>
        resp == Fail(400, PlaceExists)) &&
      (TrimmedName(name) != "" && !(exists p :: p in old(db.places) && SameIgnoringCase(p.name, TrimmedName(name))) ==>
        resp.Ok?)
    ensures resp.Ok? ==>
      resp.status == 201 && resp.body.name == TrimmedName(name) && resp.body.name != "" &&
      Trim(resp.body.name) == resp.body.name &&
      resp.body.id !in old(db.issued) && db.places == old(db.places) + [resp.body]
    ensures resp.Fail? ==> db.places == old(db.places)
    ensures NamesDistinct(old(db.places)) ==> NamesDistinct(db.places)
  {
    if auth.None? || auth.value.role != Admin {
      return Fail(403, NotAuthorized);
    }
    var trimmed := TrimmedName(name);
    if trimmed == "" {
      return Fail(400, NameRequired);
    }
    if exists p :: p in db.places && SameIgnoringCase(p.name, trimmed) {
      return Fail(400, PlaceExists);
    }
    TrimIdempotent(name.value);
    var id := db.NewId();
    var place := Place(id, trimmed);
    ghost var before := db.places;
    db.places := db.places + [place];
    forall i, j | 0 <= i < j < |db.places| && NamesDistinct(before)
      ensures !SameIgnoringCase(db.places[i].name, db.places[j].name)
    {
      if j == |before| {
        assert db.places[i] in before;
      }
    }
    resp := Ok(201, place);
  }
}
