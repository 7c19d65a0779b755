/** An agent card as the application stores it, and the admin form it is
    built from. */
module Records {
  import opened PyStrings

  /** One directory entry: the text of each field the admin forms manage. */
  datatype Agent = Agent(
    slug: string, name: string, company: string, role: string, bio: string,
    phoneMobile: string, phoneOffice: string, emails: string, websites: string,
    facebook: string, instagram: string, linkedin: string, tiktok: string,
    telegram: string, whatsapp: string, pec: string, piva: string, sdi: string, addresses: string,
    photoUrl: string, galleryUrls: string, pdf1Url: string, pdf2Url: string, pdf3Url: string, pdf4Url: string)

  /** The submitted form fields (`request.form`), keyed by their names. */
  type Form = map<string, string>

  /** `request.form.get(key, "")`. */
  function FormGet(form: Form, key: string): string {
    if key in form then form[key] else ""
  }

  /** The submitted text of a field with the surrounding whitespace removed. */
  function Submitted(form: Form, key: string): string {
    Strip(FormGet(form, key))
  }

  /** `{f: request.form.get(f, "").strip() for f in FIELDS}`: every managed
      field holds its submitted text with the surrounding whitespace
      removed, "" when it was not submitted. */
  function FromForm(form: Form): (a: Agent)
    ensures Stripped(a)
    ensures a.slug == Submitted(form, "slug")
  {
    Agent(
      Submitted(form, "slug"), Submitted(form, "name"), Submitted(form, "company"),
      Submitted(form, "role"), Submitted(form, "bio"),
      Submitted(form, "phone_mobile"), Submitted(form, "phone_office"),
      Submitted(form, "emails"), Submitted(form, "websites"),
      Submitted(form, "facebook"), Submitted(form, "instagram"), Submitted(form, "linkedin"),
      Submitted(form, "tiktok"), Submitted(form, "telegram"), Submitted(form, "whatsapp"),
      Submitted(form, "pec"), Submitted(form, "piva"), Submitted(form, "sdi"),
      Submitted(form, "addresses"), Submitted(form, "photo_url"), Submitted(form, "gallery_urls"),
      Submitted(form, "pdf1_url"), Submitted(form, "pdf2_url"), Submitted(form, "pdf3_url"),
      Submitted(form, "pdf4_url"))
  }

  /** Every field is free of surrounding whitespace. */
  predicate Stripped(a: Agent) {
    && IsStripped(a.slug) && IsStripped(a.name) && IsStripped(a.company)
    && IsStripped(a.role) && IsStripped(a.bio)
    && IsStripped(a.phoneMobile) && IsStripped(a.phoneOffice)
    && IsStripped(a.emails) && IsStripped(a.websites)
    && IsStripped(a.facebook) && IsStripped(a.instagram) && IsStripped(a.linkedin)
    && IsStripped(a.tiktok) && IsStripped(a.telegram) && IsStripped(a.whatsapp)
    && IsStripped(a.pec) && IsStripped(a.piva) && IsStripped(a.sdi)
    && IsStripped(a.addresses) && IsStripped(a.photoUrl) && IsStripped(a.galleryUrls)
    && IsStripped(a.pdf1Url) && IsStripped(a.pdf2Url) && IsStripped(a.pdf3Url)
    && IsStripped(a.pdf4Url)
  }

  /** A field that was not submitted is stored empty. */
  lemma SubmittedMissing(form: Form, key: string)
    requires key !in form
    ensures Submitted(form, key) == ""
  {
    assert |Submitted(form, key)| <= |FormGet(form, key)| == 0;
  }
}
