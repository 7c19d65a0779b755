/** The running application's directory: the process-wide `DB` dict, the
    `BASE_URL` setting read once at start-up, and the request handlers that
    update or read them. Each updating handler is proved to perform the
    transition `Repository` defines, so what `Repository` proves about that
    transition (canonical keys kept, lookups after the change, sizes) holds
    of the handler; each reading handler returns what the pure definitions
    give. */
module App {
  import opened Wrappers
  import opened PyStrings
  import opened PyDict
  import opened Records
  import opened Helpers
  import opened Repository
  import VCard
  import opened Listing

  class Directory {
    /** `DB`: the agent records keyed by slug, in insertion order. */
    var db: Db
    /** `BASE_URL`, as read from the environment when the module loads. */
    const baseUrl: string

    /** The dict is well formed, and `BASE_URL` has lost its trailing
        slashes, so the QR target never doubles the joining slash. */
    ghost predicate Valid()
      reads this
    {
      && db.Valid()
      && (baseUrl == [] || baseUrl[|baseUrl| - 1] != '/')
    }

    /** The application starts from the records `_load_db` returned and
        the `BASE_URL` environment variable. */
    constructor(loaded: Db, env: Option<string>)
      requires loaded.Valid()
      ensures Valid()
      ensures db == loaded && baseUrl == BaseUrlSetting(env)
    {
      db := loaded;
      baseUrl := BaseUrlSetting(env);
    }

    /** `admin_new_post`: builds the record from the form, normalises its
        slug, refuses an empty or taken slug, else stores the record. */
    method Create(form: Form) returns (status: Status)
      requires Valid()
      modifies this
      ensures Valid()
      ensures Outcome(db, status) == Repository.Create(old(db), FromForm(form))
    {
      var agent := FromForm(form);
      agent := agent.(slug := NormalizeSlug(agent.slug));
      if agent.slug == "" {
        return EmptySlug;
      }
      if agent.slug in db.items {
        return Duplicate;
      }
      db := db.Put(agent.slug, agent);
      status := Ok;
    }

    /** `admin_edit_post`: builds the new record from the form and hands it
        to `EditRecord`. */
    method Edit(slug: string, form: Form) returns (status: Status)
      requires Valid()
      modifies this
      ensures Valid()
      ensures Outcome(db, status) == Repository.Edit(old(db), slug, FromForm(form))
    {
      var newData := FromForm(form);
      status := EditRecord(slug, newData);
    }

    /** The checks and the update of `admin_edit_post` for a submitted
        record: 404 unless the old slug finds a record; refuses an empty new
        slug and a rename onto a taken slug; else pops the old key on a
        rename and stores the record under the new slug. */
    method EditRecord(slug: string, newData: Agent) returns (status: Status)
      requires Valid()
      modifies this
      ensures Valid()
      ensures Outcome(db, status) == Repository.Edit(old(db), slug, newData)
    {
      var oldSlug := NormalizeSlug(slug);
      if oldSlug !in db.items {
        return NotFound;
      }
      var newSlug := NormalizeSlug(newData.slug);
      if newSlug == "" {
        return EmptySlug;
      }
      if newSlug != oldSlug && newSlug in db.items {
        return Duplicate;
      }
      assert Repository.Edit(db, slug, newData) == Outcome(Replace(db, oldSlug, newSlug, newData), Ok);
      Store(oldSlug, newSlug, newData);
      status := Ok;
    }

    /** The update at the end of `admin_edit_post`: on a rename the old key
        is popped, then the new key is set. */
    method Store(oldSlug: string, newSlug: string, newData: Agent)
      requires Valid() && oldSlug in db.items
      requires newSlug == oldSlug || newSlug !in db.items
      modifies this
      ensures Valid()
      ensures db == Replace(old(db), oldSlug, newSlug, newData)
    {
      if newSlug != oldSlug {
        db := db.Pop(oldSlug);
      }
      db := db.Put(newSlug, newData);
    }

    /** `admin_delete`: pops the normalised slug, if present. */
    method Delete(slug: string)
      requires Valid()
      modifies this
      ensures Valid()
      ensures db == Repository.Delete(old(db), slug)
    {
      var key := NormalizeSlug(slug);
      db := db.Pop(key);
    }

    /** `vcard`: 404 unless the slug finds a record, else the card text. */
    method VCardOf(slug: string) returns (r: Option<string>)
      requires Valid()
      ensures Find(db, slug).None? ==> r.None?
      ensures Find(db, slug).Some? ==> r == Some(VCard.Text(Find(db, slug).value))
    {
      var agent := Find(db, slug);
      if agent.None? {
        return None;
      }
      var data := VCard.Build(agent.value);
      r := Some(data);
    }

    /** `qr_png`: 404 unless the slug finds a record, else the URL the QR
        code encodes: the configured base, or the request's origin without
        trailing slashes, then a slash and the normalised slug. */
    method QrTarget(slug: string, hostUrl: string) returns (r: Option<string>)
      requires Valid()
      ensures Find(db, slug).None? ==> r.None?
      ensures Find(db, slug).Some? ==> r == Some(QrUrl(QrBase(baseUrl, hostUrl), NormalizeSlug(slug)))
    {
      var key := NormalizeSlug(slug);
      if Find(db, slug).None? {
        return None;
      }
      var base := if baseUrl != "" then baseUrl else RStripChar(hostUrl, '/');
      r := Some(base + "/" + key);
    }

    /** `admin_home`: every record, sorted by display name ignoring case,
        records with equal names in directory order. */
    method Home() returns (agents: seq<Agent>)
      requires Valid()
      ensures multiset(agents) == multiset(db.Values())
      ensures |agents| == |db.items|
      ensures Sorted(agents)
      ensures forall k :: WithKey(agents, k) == WithKey(db.Values(), k)
    {
      SortByNameSpec(db.Values());
      SizeMatches(db);
      agents := SortByName(db.Values());
    }
  }
}
