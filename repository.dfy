/** The slug-keyed directory `DB` and the three admin mutations on it
    (create, edit or rename, delete), each as a transition from one state of
    the dict to the next together with the status the admin page reports.
    Create and edit take the record the handler built from the form
    (`Records.FromForm`); the key it asks for is the normalised `slug` field
    of that record. */
module Repository {
  import opened Wrappers
  import opened PyStrings
  import opened PyDict
  import opened Records
  import opened Helpers

  /** `DB`: agent records keyed by slug, in insertion order. */
  type Db = Dict<Agent>

  /** What a request ends with: success (a redirect to the list), the
      "Slug obbligatorio" or "Slug già esistente" form error (400), or the
      404 page. */
  datatype Status = Ok | EmptySlug | Duplicate | NotFound

  /** The directory after a request, and its status. */
  datatype Outcome = Outcome(db: Db, status: Status)

  /** Every key is a non-empty normalised slug and is the normalised `slug`
      field of the record it holds. */
  ghost predicate Canonical(db: Db) {
    CanonicalItems(db.items)
  }

  ghost predicate CanonicalItems(items: map<string, Agent>) {
    forall k :: k in items ==> k != "" && k == NormalizeSlug(items[k].slug)
  }

  /** `DB.get(normalize_slug(slug))` followed by `if not agent`: the
      record stored under the normalised slug, if any. */
  function Find(db: Db, slug: string): (r: Option<Agent>)
    ensures r.Some? <==> NormalizeSlug(slug) in db.items
    ensures r.Some? ==> r.value == db.items[NormalizeSlug(slug)]
  {
    var k := NormalizeSlug(slug);
    if k in db.items then Some(db.items[k]) else None
  }

  /** A record is found under any slug normalising to its key. */
  lemma FoundWhenStored(db: Db, slug: string, agent: Agent)
    requires NormalizeSlug(slug) in db.items && db.items[NormalizeSlug(slug)] == agent
    ensures Find(db, slug) == Some(agent)
  {
  }

  /** The record just stored under a key is the one found there. */
  lemma StoredAt(items: map<string, Agent>, gone: string, key: string, agent: Agent)
    ensures key in (items - {gone})[key := agent] && (items - {gone})[key := agent][key] == agent
  {
  }

  /** Lookups do not depend on letter case or surrounding whitespace. */
  lemma FindIgnoresCaseAndPadding(db: Db, slug: string)
    ensures Find(db, Lower(slug)) == Find(db, slug)
    ensures Find(db, Strip(slug)) == Find(db, slug)
  {
    NormalizeSlugIgnoresCaseAndPadding(slug);
  }

  /** The key a submitted record asks for: `normalize_slug` of its slug. */
  function KeyOf(data: Agent): string {
    NormalizeSlug(data.slug)
  }

  /** The key of the record built from a form is the normalised raw `slug`
      form field: stripping it first changes nothing. */
  lemma KeyOfForm(form: Form)
    ensures KeyOf(FromForm(form)) == NormalizeSlug(FormGet(form, "slug"))
  {
    NormalizeSlugIgnoresCaseAndPadding(FormGet(form, "slug"));
  }

  /** The record `admin_new_post` stores: the submitted record with its
      slug replaced by its key. */
  function NewAgent(data: Agent): (a: Agent)
    ensures a.slug == KeyOf(data) && KeyOf(a) == KeyOf(data)
    ensures a.(slug := data.slug) == data
  {
    NormalizeSlugIdempotent(data.slug);
    data.(slug := KeyOf(data))
  }

  /** `admin_new_post`: an empty slug and a slug already in use are refused
      and leave the directory as it was; otherwise the record is stored
      under its key, which becomes the last key. */
  function Create(db: Db, data: Agent): (r: Outcome)
    requires db.Valid()
    ensures r.db.Valid()
    ensures r.status == EmptySlug <==> KeyOf(data) == ""
    ensures r.status == Duplicate <==> KeyOf(data) != "" && KeyOf(data) in db.items
    ensures r.status == Ok <==> KeyOf(data) != "" && KeyOf(data) !in db.items
    ensures r.status != Ok ==> r.db == db
    ensures r.status == Ok ==>
              r.db.items == db.items[KeyOf(data) := NewAgent(data)] && r.db.keys == db.keys + [KeyOf(data)]
  {
    if KeyOf(data) == "" then Outcome(db, EmptySlug)
    else if KeyOf(data) in db.items then Outcome(db, Duplicate)
    else Outcome(db.Put(KeyOf(data), NewAgent(data)), Ok)
  }

  /** The update at the end of `admin_edit_post`: on a rename the old key is
      popped first; then the new key is set. The entry count is kept, and the
      key keeps its place unless it was renamed, in which case it moves to the
      end. */
  function Replace(db: Db, oldKey: string, newKey: string, data: Agent): (r: Db)
    requires db.Valid() && oldKey in db.items
    requires newKey == oldKey || newKey !in db.items
    ensures r.Valid()
    ensures r.items == (db.items - {oldKey})[newKey := data]
    ensures newKey == oldKey ==> r.keys == db.keys
    ensures newKey != oldKey ==> r.keys == RemoveKey(db.keys, oldKey) + [newKey]
    ensures |r.items| == |db.items|
  {
    SizeMatches(db);
    if newKey != oldKey then
      SizeMatches(db.Pop(oldKey).Put(newKey, data));
      db.Pop(oldKey).Put(newKey, data)
    else
      db.Put(newKey, data)
  }

  /** `admin_edit_post`: a slug that does not find a record gives 404; an
      empty new key, or a new key that differs from the old one and is
      taken, gives a form error; in all three cases nothing changes. Else the
      submitted record, its slug as submitted, replaces the old one: under
      the same key in place, or, when renamed, under the new key, the old
      key being removed. */
  function Edit(db: Db, slug: string, data: Agent): (r: Outcome)
    requires db.Valid()
    ensures r.db.Valid()
    ensures r.status == NotFound <==> Find(db, slug).None?
    ensures r.status == EmptySlug <==> Find(db, slug).Some? && KeyOf(data) == ""
    ensures r.status == Duplicate <==>
              Find(db, slug).Some? && KeyOf(data) != "" && KeyOf(data) != NormalizeSlug(slug)
              && KeyOf(data) in db.items
    ensures r.status != Ok ==> r.db == db
    ensures r.status == Ok ==> r.db == Replace(db, NormalizeSlug(slug), KeyOf(data), data)
  {
    if Find(db, slug).None? then Outcome(db, NotFound)
    else if KeyOf(data) == "" then Outcome(db, EmptySlug)
    else if KeyOf(data) != NormalizeSlug(slug) && KeyOf(data) in db.items then Outcome(db, Duplicate)
    else Outcome(Replace(db, NormalizeSlug(slug), KeyOf(data), data), Ok)
  }

  /** `admin_delete`: `DB.pop(normalize_slug(slug), None)`. */
  function Delete(db: Db, slug: string): (r: Db)
    requires db.Valid()
    ensures r.Valid()
    ensures r.items == db.items - {NormalizeSlug(slug)}
    ensures r.keys == RemoveKey(db.keys, NormalizeSlug(slug))
    ensures NormalizeSlug(slug) !in db.items ==> r == db
  {
    db.Pop(NormalizeSlug(slug))
  }

  /** A created record is found under the slug it was submitted with,
      whatever its case and padding, and the directory has one more entry. */
  lemma CreateThenFind(db: Db, data: Agent)
    requires db.Valid()
    ensures var r := Create(db, data);
            r.status == Ok ==>
              && Find(r.db, data.slug) == Some(NewAgent(data))
              && |r.db.items| == |db.items| + 1
  {
    var r := Create(db, data);
    if r.status == Ok {
      StoredAt(db.items, "", KeyOf(data), NewAgent(data));
      FoundWhenStored(r.db, data.slug, NewAgent(data));
      SizeMatches(db);
      SizeMatches(r.db);
    }
  }

  /** Storing a record under its own non-empty key keeps every key
      canonical, whatever key is removed first. */
  lemma CanonicalStore(items: map<string, Agent>, gone: string, agent: Agent)
    requires CanonicalItems(items)
    requires KeyOf(agent) != ""
    ensures CanonicalItems((items - {gone})[KeyOf(agent) := agent])
    ensures CanonicalItems(items[KeyOf(agent) := agent])
  {
    var key := KeyOf(agent);
    var m := (items - {gone})[key := agent];
    forall k | k in m
      ensures k != "" && k == NormalizeSlug(m[k].slug)
    {
      if k != key {
        assert k in items;
      }
    }
    var n := items[key := agent];
    forall k | k in n
      ensures k != "" && k == NormalizeSlug(n[k].slug)
    {
      if k != key {
        assert k in items;
      }
    }
  }

  /** Creating keeps every key canonical. */
  lemma CreatePreservesCanonical(db: Db, data: Agent)
    requires db.Valid() && Canonical(db)
    ensures Canonical(Create(db, data).db)
  {
    if Create(db, data).status == Ok {
      CanonicalStore(db.items, "", NewAgent(data));
    }
  }

  /** A successful edit keeps the number of entries. */
  lemma EditKeepsSize(db: Db, slug: string, data: Agent)
    requires db.Valid()
    ensures Edit(db, slug, data).status == Ok ==> |Edit(db, slug, data).db.items| == |db.items|
  {
  }

  /** After a successful edit the submitted record is found under the slug
      it was submitted with, whatever its case and padding. */
  lemma EditThenFind(db: Db, slug: string, data: Agent)
    requires db.Valid()
    ensures var r := Edit(db, slug, data);
            r.status == Ok ==> Find(r.db, data.slug) == Some(data)
  {
    var r := Edit(db, slug, data);
    if r.status == Ok {
      StoredAt(db.items, NormalizeSlug(slug), KeyOf(data), data);
      FoundWhenStored(r.db, data.slug, data);
    }
  }

  /** After a rename nothing is found under the old slug. */
  lemma RenameForgetsOld(db: Db, slug: string, data: Agent)
    requires db.Valid()
    ensures var r := Edit(db, slug, data);
            r.status == Ok && KeyOf(data) != NormalizeSlug(slug) ==> Find(r.db, slug).None?
  {
  }

  /** An edit stores the submitted record as it is: its `slug` field, only
      stripped by `FromForm`, is not replaced by the key, unlike a create. */
  lemma EditStoresSubmittedSlug(db: Db, slug: string, data: Agent)
    requires db.Valid()
    ensures var r := Edit(db, slug, data);
            r.status == Ok ==> KeyOf(data) in r.db.items && r.db.items[KeyOf(data)].slug == data.slug
  {
    var r := Edit(db, slug, data);
    if r.status == Ok {
      StoredAt(db.items, NormalizeSlug(slug), KeyOf(data), data);
    }
  }

  /** An edit that keeps the key succeeds and stores the submitted slug
      field, so when that field differs from its normalised form the stored
      record's slug differs from its key; a create would store the key. */
  lemma EditInPlace(db: Db, slug: string, data: Agent)
    requires db.Valid() && NormalizeSlug(slug) in db.items
    requires KeyOf(data) == NormalizeSlug(slug) && KeyOf(data) != ""
    ensures var r := Edit(db, slug, data);
            && r.status == Ok && KeyOf(data) in r.db.items
            && r.db.items[KeyOf(data)].slug == data.slug
            && (data.slug != KeyOf(data) ==> r.db.items[KeyOf(data)].slug != KeyOf(data))
    ensures NewAgent(data).slug == KeyOf(data)
  {
    EditStoresSubmittedSlug(db, slug, data);
  }

  /** A slug field that differs from its key: "Mario" is stored under the
      key "mario", which is its own key. */
  lemma MarioKey()
    ensures NormalizeSlug("mario") == "mario" && NormalizeSlug("Mario") == "mario"
  {
    StripMario();
    LowerMario();
  }

  lemma StripMario()
    ensures Strip("mario") == "mario" && Strip("Mario") == "Mario"
  {
    StripOfStripped("mario");
    StripOfStripped("Mario");
  }

  lemma LowerMario()
    ensures Lower("Mario") == "mario" && Lower("mario") == "mario"
  {
    assert Lower("Mario")[0] == 'm';
  }

  /** Editing keeps every key canonical. */
  lemma EditPreservesCanonical(db: Db, slug: string, data: Agent)
    requires db.Valid() && Canonical(db)
    ensures Canonical(Edit(db, slug, data).db)
  {
    if Edit(db, slug, data).status == Ok {
      CanonicalStore(db.items, NormalizeSlug(slug), data);
    }
  }

  /** Deleting twice is deleting once; afterwards the slug finds nothing and
      the directory has one entry fewer if the slug was a key. */
  lemma DeleteThenFind(db: Db, slug: string)
    requires db.Valid()
    ensures Delete(Delete(db, slug), slug) == Delete(db, slug)
    ensures Find(Delete(db, slug), slug).None?
    ensures NormalizeSlug(slug) in db.items ==> |Delete(db, slug).items| == |db.items| - 1
  {
    var r := Delete(db, slug);
    SizeMatches(db);
    SizeMatches(r);
  }

  /** Deleting keeps every key canonical. */
  lemma DeletePreservesCanonical(db: Db, slug: string)
    requires db.Valid() && Canonical(db)
    ensures Canonical(Delete(db, slug))
  {
  }
}
