/** Event types: the label shown for an event kind, the key derived from a
    new type's label, and the /api/event-types handlers that seed the
    defaults and create new types. Labels are compared ASCII-case-insensitively
    and keys are derived from ASCII labels. */
module EventTypes {

  import opened Common
  import opened Ordering
  import opened Store

  /** The built-in labels of the three schema kinds. */
  const DefaultLabels: map<string, string> :=
    map["training" := "Entraînement", "match" := "Match", "tournament" := "Tournoi"]

  /** getEventTypeLabel: the label of the first listed type with this key, when
      a non-empty list is given and has one; else the built-in label; else the
      key itself. */
  function Label(kind: string, types: Option<seq<EventType>>): (r: string)
    ensures types.Some? && (exists i :: 0 <= i < |types.value| && types.value[i].key == kind) ==>
      exists i :: 0 <= i < |types.value| && types.value[i].key == kind && r == types.value[i].title &&
        forall j :: 0 <= j < i ==> types.value[j].key != kind
    ensures (types.None? || forall t :: t in types.value ==> t.key != kind) ==>
      r == (if kind in DefaultLabels then DefaultLabels[kind] else kind)
  {
    var found := if types.Some? && |types.value| > 0 then FirstOfKey(types.value, kind) else None;
    if found.Some? then types.value[found.value].title
    else if kind in DefaultLabels then DefaultLabels[kind]
    else kind
  }

  /** `find`: the position of the first type with the key. */
  function FirstOfKey(types: seq<EventType>, key: string): (r: Option<nat>)
    ensures r.None? <==> forall t :: t in types ==> t.key != key
    ensures r.Some? ==> (r.value < |types| && types[r.value].key == key &&
      forall j :: 0 <= j < r.value ==> types[j].key != key)
  {
    if types == [] then None
    else if types[0].key == key then Some(0)
    else
      match FirstOfKey(types[1..], key)
      case None => None
      case Some(i) => Some(i + 1)
  }

  /** A listed type wins over the built-in label of the same kind. */
  lemma ListedLabelOverridesDefault(kind: string, title: string, rest: seq<EventType>, id: Id, order: int)
    ensures Label(kind, Some([EventType(id, kind, title, order)] + rest)) == title
  {
  }

  // ---------------------------------------------------------------------
  // Key derivation

  /** The characters a key keeps: lower-case ASCII letters and digits. */
  predicate IsKeyChar(c: char)
  {
    'a' <= c <= 'z' || '0' <= c <= '9'
  }

  /** toLowerCase, then every character outside [a-z0-9] becomes `_`. */
  function KeyChar(c: char): (r: char)
    ensures IsKeyChar(r) || r == '_'
  {
    var l := LowerChar(c);
    if IsKeyChar(l) then l else '_'
  }

  function Sanitize(s: string): (r: string)
    ensures |r| == |s|
    ensures forall i :: 0 <= i < |s| ==> r[i] == KeyChar(s[i])
  {
    seq(|s|, i requires 0 <= i < |s| => KeyChar(s[i]))
  }

  predicate KeyAlphabet(s: string)
  {
    forall i :: 0 <= i < |s| ==> IsKeyChar(s[i]) || s[i] == '_'
  }

  /** No two underscores in a row. */
  predicate NoRun(s: string)
  {
    forall i :: 0 <= i < |s| - 1 ==> !(s[i] == '_' && s[i + 1] == '_')
  }

  /** The letters and digits of a string, lower-cased, in order. */
  function Alnum(s: string): string
  {
    if s == [] then []
    else (if IsKeyChar(LowerChar(s[0])) then [LowerChar(s[0])] else []) + Alnum(s[1..])
  }

  /** `.replace(/_+/g, '_')`: every run of underscores becomes one. */
  function Collapse(s: string): (r: string)
    ensures |r| <= |s|
    ensures NoRun(r)
    ensures KeyAlphabet(s) ==> KeyAlphabet(r)
    ensures Alnum(r) == Alnum(s)
    ensures s != [] ==> r != [] && r[0] == s[0] && r[|r| - 1] == s[|s| - 1]
    ensures NoRun(s) ==> r == s
    decreases |s|
  {
    if |s| < 2 then s
    else if s[0] == '_' && s[1] == '_' then Collapse(s[1..])
    else [s[0]] + Collapse(s[1..])
  }

  /** `.replace(/^_|_$/g, '')`: one leading and one trailing underscore go. */
  function StripEdges(s: string): (r: string)
    ensures |r| <= |s|
  {
    var a := if s != [] && s[0] == '_' then s[1..] else s;
    if a != [] && a[|a| - 1] == '_' then a[..|a| - 1] else a
  }

  /** A derived key: only [a-z0-9_], no `_` at either end, no `__`, not empty. */
  predicate KeyShaped(k: string)
  {
    k != [] && KeyAlphabet(k) && NoRun(k) && k[0] != '_' && k[|k| - 1] != '_'
  }

  /** The key of a new type: the trimmed label lower-cased, every other
      character turned into `_`, runs of `_` collapsed, `_` stripped from both
      ends; `event` when nothing is left. */
  function DeriveKey(title: string): (r: string)
    ensures KeyShaped(r)
    ensures Alnum(title) != [] ==> Alnum(r) == Alnum(title)
    ensures Alnum(title) == [] ==> r == "event"
  {
    var t := Trim(title);
    var c := Collapse(Sanitize(t));
    var k := StripEdges(c);
    AlnumTrim(title);
    AlnumSanitize(t);
    assert Alnum(c) == Alnum(title) && KeyAlphabet(c) && NoRun(c);
    StripEdgesShape(c);
    if k == [] then "event" else k
  }

  lemma {:induction false} AlnumAppend(a: string, b: string)
    ensures Alnum(a + b) == Alnum(a) + Alnum(b)
  {
    if a != [] {
      AlnumAppend(a[1..], b);
      var h := if IsKeyChar(LowerChar(a[0])) then [LowerChar(a[0])] else [];
      assert (a + b)[0] == a[0];
      assert (a + b)[1..] == a[1..] + b;
      assert Alnum(a + b) == h + Alnum(a[1..] + b);
      assert Alnum(a) == h + Alnum(a[1..]);
    } else {
      assert a + b == b;
    }
  }

  lemma {:induction false} AlnumAllSpace(s: string)
    requires AllSpace(s)
    ensures Alnum(s) == []
  {
    if s != [] {
      AlnumAllSpace(s[1..]);
    }
  }

  /** Trimming removes white space only, never a letter or digit. */
  lemma AlnumTrim(s: string)
    ensures Alnum(Trim(s)) == Alnum(s)
  {
    TrimStartShape(s);
    var a := TrimStart(s);
    var n := |s| - |a|;
    assert s == s[..n] + a;
    AlnumAppend(s[..n], a);
    AlnumAllSpace(s[..n]);
    TrimEndShape(a);
    var b := TrimEnd(a);
    assert a == b + a[|b|..];
    AlnumAppend(b, a[|b|..]);
    AlnumAllSpace(a[|b|..]);
  }

  /** Replacing the other characters by `_` keeps the letters and digits. */
  lemma {:induction false} AlnumSanitize(s: string)
    ensures Alnum(Sanitize(s)) == Alnum(s)
    ensures KeyAlphabet(Sanitize(s))
  {
    if s != [] {
      AlnumSanitize(s[1..]);
      assert Sanitize(s)[1..] == Sanitize(s[1..]);
    }
  }

  predicate AllUnderscores(s: string)
  {
    forall i :: 0 <= i < |s| ==> s[i] == '_'
  }

  lemma {:induction false} AlnumUnderscores(s: string)
    requires AllUnderscores(s)
    ensures Alnum(s) == []
  {
    if s != [] {
      AlnumUnderscores(s[1..]);
    }
  }

  /** In the key alphabet, a string without letters or digits is all underscores. */
  lemma {:induction false} NoAlnumUnderscores(s: string)
    requires KeyAlphabet(s) && Alnum(s) == []
    ensures AllUnderscores(s)
  {
    if s != [] {
      assert s == [s[0]] + s[1..];
      AlnumAppend([s[0]], s[1..]);
      NoAlnumUnderscores(s[1..]);
      assert forall i :: 1 <= i < |s| ==> s[i] == s[1..][i - 1];
    }
  }

  /** StripEdges keeps the slice between an optional leading and an optional
      trailing underscore. */
  lemma StripEdgesSlice(s: string) returns (i: nat, j: nat)
    ensures i <= j <= |s| && StripEdges(s) == s[i..j]
    ensures AllUnderscores(s[..i]) && AllUnderscores(s[j..])
    ensures i == 1 <==> s != [] && s[0] == '_'
    ensures j < |s| ==> s[j] == '_'
    ensures j == |s| && i < |s| ==> s[|s| - 1] != '_'
  {
    i := if s != [] && s[0] == '_' then 1 else 0;
    var a := s[i..];
    j := if a != [] && a[|a| - 1] == '_' then |s| - 1 else |s|;
    if j < |s| {
      assert a[..|a| - 1] == s[i..j];
    }
  }

  /** Stripping the edges of a collapsed string in the key alphabet gives a
      key, or nothing when the string had no letter or digit. */
  lemma StripEdgesShape(s: string)
    requires KeyAlphabet(s) && NoRun(s)
    ensures Alnum(StripEdges(s)) == Alnum(s)
    ensures StripEdges(s) == [] <==> Alnum(s) == []
    ensures StripEdges(s) != [] ==> KeyShaped(StripEdges(s))
  {
    var i, j := StripEdgesSlice(s);
    var r := s[i..j];
    assert s == s[..i] + r + s[j..];
    AlnumAppend(s[..i] + r, s[j..]);
    AlnumAppend(s[..i], r);
    AlnumUnderscores(s[..i]);
    AlnumUnderscores(s[j..]);
    if r == [] {
      if Alnum(s) == [] {
      }
    } else {
      assert r[0] == s[i] && r[|r| - 1] == s[j - 1];
      if i == 1 {
        assert s[0] == '_';
      }
      assert r[0] != '_';
      assert r[|r| - 1] != '_';
      assert IsKeyChar(LowerChar(r[0]));
    }
  }

  /** A string that already has the shape of a key derives itself. */
  lemma KeyShapedIsFixed(k: string)
    requires KeyShaped(k)
    ensures DeriveKey(k) == k
  {
    TrimStartIdle(k);
    TrimEndIdle(k);
    assert Sanitize(k) == k;
  }

  /** Deriving a key from a derived key changes nothing. */
  lemma DeriveKeyIdempotent(title: string)
    ensures DeriveKey(DeriveKey(title)) == DeriveKey(title)
  {
    KeyShapedIsFixed(DeriveKey(title));
  }

  // ---------------------------------------------------------------------
  // GET and POST /api/event-types

  const LabelRequired: string := "Le libellé est requis"
  const AlreadyExists: string := "Ce type d'événement existe déjà"

  /** `sort({ order: 1, label: 1 })`. */
  predicate ByOrderThenTitle(a: EventType, b: EventType)
  {
    PairLe((a.order, a.title), (b.order, b.title))
  }

  lemma ByOrderThenTitleTotal()
    ensures TotalPreorder(ByOrderThenTitle)
  {
    forall a: EventType, b: EventType ensures ByOrderThenTitle(a, b) || ByOrderThenTitle(b, a) {
      StrLeTotal(a.title, b.title);
    }
    forall a: EventType, b: EventType, c: EventType | ByOrderThenTitle(a, b) && ByOrderThenTitle(b, c)
      ensures ByOrderThenTitle(a, c)
    {
      if a.order == b.order && b.order == c.order {
        StrLeTrans(a.title, b.title, c.title);
      }
    }
  }

  /** Each type's `order` is its position in the table: what seeding and
      creation through these handlers keep. */
  predicate OrdersAreIndexes(types: seq<EventType>)
  {
    forall i :: 0 <= i < |types| ==> types[i].order == i
  }

  /** No two labels are equal ignoring case. */
  predicate TitlesDistinct(types: seq<EventType>)
  {
    forall i, j :: 0 <= i < j < |types| ==> !SameIgnoringCase(types[i].title, types[j].title)
  }

  /** A table whose orders are the positions is listed in stored order. */
  lemma ListingIsCreationOrder(types: seq<EventType>)
    requires OrdersAreIndexes(types)
    ensures SortBy(types, ByOrderThenTitle) == types
  {
    assert SortedBy(types, ByOrderThenTitle);
    SortByIdentity(types, ByOrderThenTitle);
  }

  /** The three types inserted into an empty table, with their identifiers. */
  function Defaults(ids: seq<Id>): (r: seq<EventType>)
    requires |ids| == 3
    ensures |r| == 3 && OrdersAreIndexes(r) && KeysUnique(r) && TitlesDistinct(r)
    ensures forall i :: 0 <= i < 3 ==> r[i].id == ids[i] && Label(r[i].key, None) == r[i].title
  {
    [EventType(ids[0], "training", "Entraînement", 0),
     EventType(ids[1], "match", "Match", 1),
     EventType(ids[2], "tournament", "Tournoi", 2)]
  }

  /** GET: an authenticated caller gets every type sorted by order then label;
      an empty table is first seeded with the three defaults. */
  method GetEventTypes(db: Db, auth: Option<AuthUser>) returns (resp: Response<seq<EventType>>, ghost ids: seq<Id>)
    modifies db`eventTypes, db`issued
    ensures auth.None? ==> resp == Fail(401, NotAuthenticated) && db.eventTypes == old(db.eventTypes)
    ensures auth.Some? && old(db.eventTypes) != [] ==> db.eventTypes == old(db.eventTypes)
    ensures auth.Some? && old(db.eventTypes) == [] ==>
      |ids| == 3 && db.eventTypes == Defaults(ids) && (forall i :: 0 <= i < 3 ==> ids[i] !in old(db.issued)) &&
      ids[0] != ids[1] && ids[1] != ids[2] && ids[0] != ids[2]
    ensures auth.Some? ==>
      resp.Ok? && resp.status == 200 && resp.body == SortBy(db.eventTypes, ByOrderThenTitle) &&
      SortedBy(resp.body, ByOrderThenTitle) && multiset(resp.body) == multiset(db.eventTypes)
    ensures OrdersAreIndexes(old(db.eventTypes)) ==> OrdersAreIndexes(db.eventTypes)
    ensures KeysUnique(old(db.eventTypes)) ==> KeysUnique(db.eventTypes)
    ensures TitlesDistinct(old(db.eventTypes)) ==> TitlesDistinct(db.eventTypes)
  {
    ids := [];
    if auth.None? {
      return Fail(401, NotAuthenticated), ids;
    }
    if db.eventTypes == [] {
      ids := SeedDefaults(db);
    }
    ByOrderThenTitleTotal();
    SortBySorted(db.eventTypes, ByOrderThenTitle);
    resp := Ok(200, SortBy(db.eventTypes, ByOrderThenTitle));
  }

  /** The seeding step of GET: three fresh identifiers, then the defaults. */
  method SeedDefaults(db: Db) returns (ghost ids: seq<Id>)
    requires db.eventTypes == []
    modifies db`eventTypes, db`issued
    ensures |ids| == 3 && db.eventTypes == Defaults(ids) && (forall i :: 0 <= i < 3 ==> ids[i] !in old(db.issued))
    ensures ids[0] != ids[1] && ids[1] != ids[2] && ids[0] != ids[2]
  {
    var a := db.NewId();
    var b := db.NewId();
    var c := db.NewId();
    db.eventTypes := Defaults([a, b, c]);
    ids := [a, b, c];
  }

  /** `typeof label === 'string' ? label.trim() : ''`. */
  function TrimmedLabel(title: Option<string>): string
  {
    if title.Some? then Trim(title.value) else ""
  }

  /** The duplicate query: a type with the same key, or a label equal ignoring case. */
  predicate Clashes(types: seq<EventType>, key: string, title: string)
  {
    exists e :: e in types && (e.key == key || SameIgnoringCase(e.title, title))
  }

  /** POST: admin only; a non-empty trimmed label whose key and label are both
      new is appended with `order` equal to the number of existing types. */
  method PostEventType(db: Db, auth: Option<AuthUser>, title: Option<string>) returns (resp: Response<EventType>)
    modifies db`eventTypes, db`issued
    ensures (auth.None? || auth.value.role != Admin) ==> resp == Fail(403, NotAuthorized)
    ensures auth.Some? && auth.value.role == Admin && TrimmedLabel(title) == "" ==> resp == Fail(400, LabelRequired)
    ensures auth.Some? && auth.value.role == Admin && TrimmedLabel(title) != "" ==>
      var t := TrimmedLabel(title);
      (Clashes(old(db.eventTypes), DeriveKey(t), t) ==> resp == Fail(400, AlreadyExists)) &&
      (!Clashes(old(db.eventTypes), DeriveKey(t), t) ==>
        resp.Ok? && resp.status == 201 && resp.body.key == DeriveKey(t) && resp.body.title == t &&
        resp.body.order == |old(db.eventTypes)| && resp.body.id !in old(db.issued))
    ensures resp.Ok? ==> db.eventTypes == old(db.eventTypes) + [resp.body]
    ensures resp.Fail? ==> db.eventTypes == old(db.eventTypes)
    ensures OrdersAreIndexes(old(db.eventTypes)) ==> OrdersAreIndexes(db.eventTypes)
    ensures KeysUnique(old(db.eventTypes)) ==> KeysUnique(db.eventTypes)
    ensures TitlesDistinct(old(db.eventTypes)) ==> TitlesDistinct(db.eventTypes)
  {
    if auth.None? || auth.value.role != Admin {
      return Fail(403, NotAuthorized);
    }
    var trimmedLabel := TrimmedLabel(title);
    if trimmedLabel == "" {
      return Fail(400, LabelRequired);
    }
    var key := DeriveKey(trimmedLabel);
    if Clashes(db.eventTypes, key, trimmedLabel) {
      return Fail(400, AlreadyExists);
    }
    var count := |db.eventTypes|;
    var id := db.NewId();
    var eventType := EventType(id, key, trimmedLabel, count);
    AppendKeepsInvariants(db.eventTypes, eventType);
    db.eventTypes := db.eventTypes + [eventType];
    resp := Ok(201, eventType);
  }

  /** A type that clashes with none and takes the next order keeps the
      table's invariants. */
  lemma AppendKeepsInvariants(types: seq<EventType>, e: EventType)
    requires !Clashes(types, e.key, e.title) && e.order == |types|
    ensures OrdersAreIndexes(types) ==> OrdersAreIndexes(types + [e])
    ensures KeysUnique(types) ==> KeysUnique(types + [e])
    ensures TitlesDistinct(types) ==> TitlesDistinct(types + [e])
  {
    forall i | 0 <= i < |types|
      ensures types[i].key != e.key && !SameIgnoringCase(types[i].title, e.title)
    {
      assert types[i] in types;
    }
  }
}
