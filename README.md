# Pay4You agent cards: a Dafny model of the card directory

The application keeps a directory of agents' digital business cards. Each
card is a record of 25 text fields, keyed by a URL slug. An administrator
creates, edits (and so renames) and deletes cards through HTML forms. The
public side serves three things for a slug: the card page, a vCard 3.0 file
and a QR code that encodes the card's URL.

This project models the part of `app.py` that decides what the directory
holds and what the public artifacts contain. It proves what that part
guarantees:

- **Slug normalisation** (`normalize_slug`). Strips whitespace, then
  lowercases. It is idempotent. It ignores case and padding. It gives ""
  exactly for blank input.
- **The `ensure_http` link filter.** Three cases: empty, already `http(s)`,
  and prefixed with `https://`. The filter is idempotent.
- **The QR target URL.** Made from `BASE_URL` or the request origin. Exactly
  one slash joins the base and the slug.
- **The directory `DB`.** A Python dict with its insertion order (`PyDict`).
- **The admin transitions** (`Repository`):
  - create, edit/rename and delete are pure functions from one directory
    to the next; create and edit also give their 400/404 status, while
    delete has no error case;
  - failures leave the directory unchanged;
  - a rename removes the old key and keeps the entry count;
  - delete is idempotent and a no-op on a missing slug;
  - every transition keeps keys canonical: each key is a non-empty
    normalised slug, and is the normalised slug of the record it holds.
- **The running application** (`App.Directory`). A class whose `db` field
  is the process-wide `DB`. Each handler updates it in place and is proved
  to perform exactly the transition `Repository` defines.
- **The vCard body** (`VCard`). A method with the source's loop over the
  e-mail addresses, proved equal to a line-list specification. That
  specification is proved to have the card frame, one `TEL` line per
  non-empty number and one `EMAIL` line per address.
- **The admin list order** (`Listing`). Python's stable `sorted` by
  lowercased name. The list is proved sorted, a permutation of
  `DB.values()`, and stable.

Python's own semantics are written out where they matter:

- `str.strip` uses the `str.isspace` character set;
- `split`/`join` on one character, `rstrip(c)` and `replace(c, "")`;
- string `<` is code-point order;
- dict insertion order is kept, and `d[k] = v` on an existing key keeps
  its position.

The model follows the code as written:

- Only the slug is required; an empty `name` is accepted.
- Edit stores the submitted record with its `slug` field stripped but not
  lowercased, so the stored field may differ in case from its key (see
  `Repository.EditInPlace` and `Repository.MarioKey`). Create stores the normalised slug.
  The key itself is always canonical.
- Photo, gallery and document references are plain URL text fields that
  the form overwrites; there are no uploads and no timestamps.

Files: `wrappers.dfy` (Option), `strings.dfy` (PyStrings), `pydict.dfy`
(PyDict), `helpers.dfy` (Helpers), `records.dfy` (Records),
`repository.dfy` (Repository), `vcard.dfy` (VCard), `listing.dfy`
(Listing), `directory.dfy` (App).

## Model

| member | source | states |
|---|---|---|
| Helpers.NormalizeSlug | app.py:74-75 | a normalised slug has no surrounding whitespace and no capital letters, and is never longer than the input, so "" normalises to "" |
| Helpers.NormalizeSlugIdempotent | app.py:74-75 | normalising a normalised slug leaves it unchanged |
| Helpers.NormalizeSlugEmptyIff | app.py:74-75 | the slug is "" exactly when every character of the input is whitespace |
| Helpers.NormalizeSlugIgnoresCaseAndPadding | app.py:74-75 | lowercasing or stripping the input first gives the same slug |
| Helpers.NormalizeSlugOrEmpty | app.py:74-75 | `None` reads as "" (`s or ""`); a string is normalised |
| Helpers.EnsureHttp | app.py:62-69 | a missing or empty link gives ""; a stripped link already starting `http://` or `https://` is returned as is, any other gets `https://` in front; a non-empty input always yields an http(s) URL |
| Helpers.EnsureHttpIdempotent | app.py:62-69 | filtering the filter's output changes nothing |
| Helpers.BaseUrlSetting | app.py:33 | the setting is the environment value minus its trailing slashes: a prefix of it that ends in no slash, followed only by slashes; unset gives "" |
| Helpers.QrBase | app.py:252 | a non-empty `BASE_URL` wins; otherwise the request origin minus its trailing slashes |
| Helpers.QrUrl | app.py:253 | the URL is the base, one `/`, then the slug, with the lengths adding up |
| Helpers.QrUrlSingleSlashAtJoin | app.py:252-253 | for every environment and request origin, the character before the joining slash is not a slash, nor is the one after it when the slug does not start with one |
| Helpers.BaseUrlExample | app.py:33 | `BASE_URL` "https://cards.example.com", with or without trailing slashes, is read as that origin |
| Helpers.QrUrlExample | app.py:252-253 | `BASE_URL` "https://cards.example.com" with or without trailing slashes gives "https://cards.example.com/john-doe" for "john-doe" |
| Helpers.QrBaseSlashesOnlyFallsBack | app.py:33 | a `BASE_URL` of slashes only counts as unset, so the request origin is used |
| PyStrings.Strip | app.py:143 | `str.strip()` leaves no whitespace at either end and never lengthens the string |
| PyStrings.StripIdempotent | app.py:143 | stripping twice is stripping once |
| PyStrings.StripEmptyIffBlank | app.py:143 | strip gives "" exactly for all-whitespace input |
| PyStrings.Lower | app.py:75 | `str.lower()` keeps the length, lowercases character by character and leaves no capital |
| PyStrings.LowerIdempotent | app.py:75 | lowercasing twice is lowercasing once |
| PyStrings.LowerStrip | app.py:75 | lowercasing commutes with stripping |
| PyStrings.RStripChar | app.py:33 | `rstrip(c)` removes exactly the trailing run of `c` |
| PyStrings.RemoveChar | app.py:226-227 | `replace(" ", "")` leaves no space and keeps every other character with its count |
| PyStrings.RemoveCharCons | app.py:226-227 | `replace(c, "")` drops a first character equal to `c`, keeps any other, then goes on with the rest |
| PyStrings.RemoveCharAppend | app.py:226-227 | `replace(c, "")` of a concatenation is the concatenation of the pieces' results, so the kept characters stay in their order |
| PyStrings.RemoveCharSingle | app.py:226-227 | a single character is dropped when it is `c` and kept otherwise |
| PyStrings.RemoveCharEmptyIff | app.py:226-227 | a number becomes "" exactly when it held only spaces |
| PyStrings.Split | app.py:228 | `split(",")` gives at least one piece and no piece holds a comma |
| PyStrings.JoinSplit | app.py:228 | joining the pieces of a split with the separator gives back the string |
| PyStrings.SplitJoin | app.py:228 | splitting a comma-joined list of comma-free items gives back the items |
| PyStrings.LexLeTotal | app.py:121 | code-point string order is total |
| PyStrings.LexLeTransitive | app.py:121 | code-point string order is transitive |
| PyStrings.LexLeAntisymmetric | app.py:121 | code-point string order is antisymmetric |
| PyDict.RemoveKeyAt | app.py:191 | in a duplicate-free key list, removing the key at position i cuts out exactly that position and keeps the others in order |
| PyDict.Dict.Put | app.py:151 | `d[k] = v` keeps the dict well formed, sets `k`, keeps the place of an existing key and appends a new one |
| PyDict.Dict.Pop | app.py:201 | `d.pop(k, None)` removes `k`, leaves the other keys in their insertion order, and is a no-op when `k` is absent |
| PyDict.Dict.Values | app.py:121 | `d.values()` lists the values in key insertion order |
| Records.FromForm | app.py:143 | every field of the built record is free of surrounding whitespace, and the slug field is the stripped form value |
| Records.SubmittedMissing | app.py:143 | a field missing from the form is stored as "" |
| Repository.Find | app.py:219-222 | a slug finds a record exactly when its normalised form is a key, and then finds the record under that key |
| Repository.FindIgnoresCaseAndPadding | app.py:219-220 | lookups give the same answer for a lowercased or stripped slug |
| Repository.KeyOfForm | app.py:181-182 | the key asked for by the record built from a form is the normalised raw `slug` field |
| Repository.NewAgent | app.py:143-144 | the created record is the submitted one with its slug replaced by its key, which is its own normalised slug |
| Repository.Create | app.py:143-151 | empty slug gives "Slug obbligatorio" and a taken slug gives "Slug già esistente", both exactly and both leaving the directory unchanged; otherwise the record is stored under its key, appended as the last key |
| Repository.CreateThenFind | app.py:143-151 | after a create the record is found under the submitted slug, and the directory has one more entry |
| Repository.CreatePreservesCanonical | app.py:143-151 | create keeps every key canonical |
| Repository.Replace | app.py:189-192 | the rename update removes the old key and sets the new one; with the same key the order is kept, on a rename the new key moves to the end; the entry count is kept |
| Repository.Edit | app.py:169-192 | 404 exactly when the old slug finds nothing; the empty-slug and taken-slug errors exactly in their cases (a slug equal to the old one is not "taken"); nothing changes on any error; otherwise the result is the rename update |
| Repository.EditKeepsSize | app.py:189-192 | a successful edit keeps the number of entries |
| Repository.EditThenFind | app.py:181-192 | after an edit the submitted record is found under the submitted slug |
| Repository.RenameForgetsOld | app.py:190-191 | after a rename the old slug finds nothing |
| Repository.EditStoresSubmittedSlug | app.py:181-192 | an edit stores the record as submitted: the stored slug field is the submitted one, not the key |
| Repository.EditInPlace | app.py:181-192 | an edit that keeps the key succeeds and stores the submitted slug field, so a field that differs from its normalised form is stored under a key it differs from, while a create stores the key itself |
| Repository.MarioKey | app.py:74-75 | the slug field "Mario" has the key "mario", which is its own key, so such a field differs from the key it is stored under |
| Repository.EditPreservesCanonical | app.py:169-192 | edit and rename keep every key canonical |
| Repository.Delete | app.py:200-201 | delete removes the normalised slug, keeps the other keys in their order, and is a no-op when the slug is absent |
| Repository.DeleteThenFind | app.py:200-201 | deleting twice is deleting once; afterwards the slug finds nothing; an existing key leaves one entry fewer |
| Repository.DeletePreservesCanonical | app.py:200-201 | delete keeps every key canonical |
| App.Directory.constructor | app.py:33 | the application starts from the loaded records and the `BASE_URL` setting, which ends in no slash |
| App.Directory.Create | app.py:143-151 | the handler's in-place update and status are those of `Repository.Create` on the record built from the form |
| App.Directory.Edit | app.py:181-192 | the handler's update and status are those of `Repository.Edit` on the record built from the form |
| App.Directory.EditRecord | app.py:169-192 | the checks and update for a built record give exactly `Repository.Edit` |
| App.Directory.Store | app.py:189-192 | pop-then-set performs exactly the rename update `Repository.Replace` |
| App.Directory.Delete | app.py:200-201 | the handler's update is `Repository.Delete` |
| App.Directory.VCardOf | app.py:219-241 | no card for a slug that finds nothing; otherwise the vCard text of the record found |
| App.Directory.QrTarget | app.py:247-253 | nothing for a slug that finds nothing; otherwise the QR URL of the configured or request base and the normalised slug |
| App.Directory.Home | app.py:121 | the listing holds every record of the directory, as many times as it occurs there, is sorted by lowercased name and keeps directory order among equal names |
| VCard.NonBlankItems | app.py:228 | the kept items are non-empty and stripped |
| VCard.NonBlankItemsSingle | app.py:228 | one part gives itself stripped when that is not blank, and nothing otherwise |
| VCard.NonBlankItemsAppend | app.py:228 | the items kept from two runs of parts are those kept from the first followed by those kept from the second, so every non-blank part is kept, stripped, in input order |
| VCard.EmailItems | app.py:228 | every address read from the `emails` field is non-empty, stripped and comma-free |
| VCard.EmailItemsOfEmpty | app.py:228 | an empty `emails` field gives no address |
| VCard.EmailItemsTwo | app.py:228 | two comma-free, non-blank texts joined by a comma give their two stripped addresses in order |
| VCard.StripPadded | app.py:228 | stripping a stripped text behind leading whitespace gives the text |
| VCard.EmailItemsCommaSpace | app.py:228 | a field "x, y" of two clean addresses with a space after the comma gives `x` then `y` |
| VCard.EmailItemsExample | app.py:228 | "a@x.com, b@y.com" gives "a@x.com" then "b@y.com" |
| VCard.EmailItemsRoundTrip | app.py:228 | comma-joining clean addresses and reading them back gives the same addresses in order; no addresses give the empty field and back |
| VCard.Mobile | app.py:226 | the mobile number without its spaces holds no space, and is empty exactly when the stored number held only spaces |
| VCard.Office | app.py:227 | the office number without its spaces holds no space, and is empty exactly when the stored number held only spaces |
| VCard.EmailList | app.py:228 | the record's addresses are non-empty, stripped and comma-free; an empty field gives none |
| VCard.Build | app.py:225-241 | the body is the card text of the record: name, phone numbers without spaces and the addresses |
| VCard.Assemble | app.py:230-241 | the lines built in place, joined by CRLF, are the card's specified lines |
| VCard.EmailLinesAt | app.py:238-239 | the i-th e-mail line carries the i-th address |
| VCard.CardLinesTagged | app.py:236-239 | one CELL line exactly when the mobile is non-empty, one WORK line exactly when the office number is, and the EMAIL lines are exactly the addresses in order |
| VCard.LinesTagged | app.py:225-239 | for a record: the phone lines carry the stored numbers without spaces, and there are as many EMAIL lines as addresses |
| VCard.CellLineIff | app.py:226-236 | the mobile line appears exactly when the stored mobile holds a non-space character |
| VCard.WorkLineIff | app.py:227-237 | the office line appears exactly when the stored office number holds a non-space character |
| VCard.CardLinesShape | app.py:230-240 | a card has 5 lines plus one per non-empty phone number plus one per address; it opens with the BEGIN, VERSION, N (`name;;;;`) and FN lines, closes with END, and has no empty line |
| VCard.Lines | app.py:225-240 | a record's card has 5 lines plus one per non-empty phone number plus one per address, opens with the BEGIN, VERSION, N and FN lines of its name, closes with END, and has no empty line |
| VCard.JoinedShape | app.py:241 | joined by CRLF, at least five lines ending in `END:VCARD` give a text that starts with the first four lines, each followed by CRLF, and ends with CRLF then `END:VCARD` |
| VCard.CardTextShape | app.py:230-241 | the card text starts with the four header lines, each followed by CRLF, and ends with CRLF then `END:VCARD` |
| VCard.Text | app.py:225-241 | a record's card text starts with the four header lines of its name, each followed by CRLF, and ends with CRLF then `END:VCARD` |
| Listing.SortKey | app.py:121 | the sort key is the display name lowercased character by character, of the same length and with no capital |
| Listing.Insert | app.py:121 | inserting adds exactly the one record |
| Listing.SortByName | app.py:121 | sorting is a permutation |
| Listing.InsertSorted | app.py:121 | inserting into a sorted list keeps it sorted |
| Listing.InsertWithKey | app.py:121 | inserting into a sorted list puts the record before the records already there with the same name, and keeps their order |
| Listing.SortByNameSorted | app.py:121 | the listing is in lowercased-name order |
| Listing.SortByNameStable | app.py:121 | records with equal lowercased names keep their directory order |
| Listing.SortByNameSpec | app.py:121 | the listing is a permutation of the same length, sorted and stable |

## Left out

- Flask routing, the login and session check (`is_admin`), templates and redirects: each handler is modelled from the point where it is admitted, and its response is reduced to a `Status` or an optional value.
- `_load_db` and `_save_db` (JSON file I/O): the directory is loaded by the `App.Directory` constructor and saving is not modelled.
- `ADMIN_PASSWORD` and `APP_SECRET` start-up settings: configuration of the login, which is outside the model.
- The QR image (`qrcode.make`, PNG encoding) and the vCard's UTF-8 encoding and `send_file`: the model stops at the URL text and at the card text.
- The public card page (`public_card`) and the edit form page (`admin_edit`): they only look a record up, which `Repository.Find` models.
- Concurrency between requests: the handlers run one at a time.
- PyStrings.LowerChar: models `str.lower` for ASCII and Latin-1 capitals only, because the full Unicode case table is out of scope.
- Records.FromForm: a record holds exactly the 25 managed text fields. A loaded JSON record with extra keys or `null` values cannot be represented, so `agent.get(...) or ""` is modelled as reading a string.
- Repository.Find: a stored record is never falsy here. In the source an empty stored dict `{}` reads as not found, but a record of the 25 fields always exists.
- App.Directory.Create: the method's contract states the equality with `Repository.Create`, not canonicity of the keys; canonicity is proved about `Repository.Create` (`Repository.CreatePreservesCanonical`). The same holds for `App.Directory.Edit` and `App.Directory.Delete`.
