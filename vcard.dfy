/** The vCard 3.0 text served for an agent card (a subset of RFC 2426:
    N in section 3.1.2, FN in section 3.1.1, TEL in section 3.3.1 and
    EMAIL in section 3.3.2), one content line per entry, joined by CRLF. */
module VCard {
  import opened PyStrings
  import opened Records

  const CRLF: string := "\r\n"
  const BEGIN_LINE: string := "BEGIN:VCARD"
  const VERSION_LINE: string := "VERSION:3.0"
  const END_LINE: string := "END:VCARD"
  const CELL_TAG: string := "TEL;TYPE=CELL:"
  const WORK_TAG: string := "TEL;TYPE=WORK:"
  const EMAIL_TAG: string := "EMAIL;TYPE=INTERNET:"

  /** `[e.strip() for e in parts if e.strip()]`. */
  function NonBlankItems(parts: seq<string>): (r: seq<string>)
    ensures |r| <= |parts|
    ensures forall i :: 0 <= i < |r| ==> r[i] != "" && IsStripped(r[i])
  {
    if parts == [] then [] else Kept(parts[0]) + NonBlankItems(parts[1..])
  }

  /** What one part contributes: itself stripped, unless that is blank. */
  function Kept(p: string): seq<string> {
    var e := Strip(p);
    if e != "" then [e] else []
  }

  /** One part is kept, stripped, exactly when it is not blank. */
  lemma NonBlankItemsSingle(p: string)
    ensures NonBlankItems([p]) == (if Strip(p) != "" then [Strip(p)] else [])
  {
    assert [p][1..] == [];
  }

  /** The head and tail of a concatenation with a non-empty left part. */
  lemma ConcatHeadTail<T>(a: seq<T>, b: seq<T>)
    requires a != []
    ensures (a + b)[0] == a[0] && (a + b)[1..] == a[1..] + b
  {
  }

  lemma ConcatAssoc<T>(x: seq<T>, y: seq<T>, z: seq<T>)
    ensures x + (y + z) == (x + y) + z
  {
  }

  /** The filter works part by part: the items kept from `a + b` are those
      kept from `a` followed by those kept from `b`, so with the one-part
      case the kept items are exactly the non-blank parts, stripped and in
      their order. */
  lemma {:induction false} NonBlankItemsAppend(a: seq<string>, b: seq<string>)
    ensures NonBlankItems(a + b) == NonBlankItems(a) + NonBlankItems(b)
  {
    if a == [] {
      assert a + b == b;
    } else {
      ConcatHeadTail(a, b);
      NonBlankItemsAppend(a[1..], b);
      ConcatAssoc(Kept(a[0]), NonBlankItems(a[1..]), NonBlankItems(b));
    }
  }

  /** Stripping and dropping blank items brings in no comma. */
  lemma {:induction false} NonBlankItemsNoComma(parts: seq<string>)
    requires forall i :: 0 <= i < |parts| ==> ',' !in parts[i]
    ensures forall i :: 0 <= i < |NonBlankItems(parts)| ==> ',' !in NonBlankItems(parts)[i]
  {
    if parts != [] {
      StripKeepsOut(parts[0], ',');
      NonBlankItemsNoComma(parts[1..]);
    }
  }

  /** The addresses of the comma-separated `emails` field: every item is
      non-empty, has no surrounding whitespace and holds no comma. */
  function EmailItems(emails: string): (r: seq<string>)
    ensures forall i :: 0 <= i < |r| ==> r[i] != "" && IsStripped(r[i]) && ',' !in r[i]
    ensures |r| <= |Split(emails, ',')|
  {
    NonBlankItemsNoComma(Split(emails, ','));
    NonBlankItems(Split(emails, ','))
  }

  /** Items that are already non-blank and stripped are kept as they are. */
  lemma {:induction false} NonBlankItemsOfClean(items: seq<string>)
    requires forall i :: 0 <= i < |items| ==> items[i] != "" && IsStripped(items[i])
    ensures NonBlankItems(items) == items
  {
    if items != [] {
      StripOfStripped(items[0]);
      NonBlankItemsOfClean(items[1..]);
      assert items == [items[0]] + items[1..];
    }
  }

  /** An empty `emails` field holds no address. */
  lemma EmailItemsOfEmpty(emails: string)
    ensures emails == "" ==> EmailItems(emails) == []
  {
    assert Split("", ',') == [""];
    assert Strip("") == "";
  }

  /** Two comma-free, non-blank texts joined by a comma give two
      addresses: each text stripped, in their order. */
  lemma EmailItemsTwo(x: string, y: string)
    requires ',' !in x && ',' !in y
    requires Strip(x) != "" && Strip(y) != ""
    ensures EmailItems(x + [','] + y) == [Strip(x), Strip(y)]
  {
    SplitAtSep(x, ',', y);
    SplitNoSep(y, ',');
    assert [x] + [y] == [x, y];
    NonBlankItemsAppend([x], [y]);
    NonBlankItemsSingle(x);
    NonBlankItemsSingle(y);
  }

  /** Stripping a stripped text behind leading whitespace gives the text. */
  lemma StripPadded(pad: string, y: string)
    requires forall i :: 0 <= i < |pad| ==> IsSpace(pad[i])
    requires y != "" && IsStripped(y)
    ensures Strip(pad + y) == y
  {
    TrimStartPadded(pad, y);
    StripOfStripped(y);
    TrimStartOfStripped(y);
  }

  lemma {:induction false} TrimStartPadded(pad: string, y: string)
    requires forall i :: 0 <= i < |pad| ==> IsSpace(pad[i])
    requires y != "" && IsStripped(y)
    ensures TrimStart(pad + y) == TrimStart(y)
  {
    if pad == [] {
      assert pad + y == y;
    } else {
      assert (pad + y)[0] == pad[0];
      assert (pad + y)[1..] == pad[1..] + y;
      TrimStartPadded(pad[1..], y);
    }
  }

  /** A field written "x, y", with a space after the comma as people type
      it, gives the addresses `x` and `y`, in that order. */
  lemma EmailItemsCommaSpace(x: string, y: string)
    requires x != "" && IsStripped(x) && ',' !in x
    requires y != "" && IsStripped(y) && ',' !in y
    ensures EmailItems(x + ", " + y) == [x, y]
  {
    var py := " " + y;
    assert x + ", " + y == x + [','] + py;
    assert ',' !in py;
    StripPadded(" ", y);
    StripOfStripped(x);
    EmailItemsTwo(x, py);
  }

  /** The addresses of "a@x.com, b@y.com" are "a@x.com" and "b@y.com", in
      that order: the padding after the comma is stripped. */
  lemma EmailItemsExample()
    ensures EmailItems("a@x.com, b@y.com") == ["a@x.com", "b@y.com"]
  {
    assert "a@x.com, b@y.com" == "a@x.com" + ", " + "b@y.com";
    EmailItemsCommaSpace("a@x.com", "b@y.com");
  }

  /** Writing a list of addresses comma-separated and reading it back gives
      the same addresses, in the same order. */
  lemma {:induction false} EmailItemsRoundTrip(items: seq<string>)
    requires forall i :: 0 <= i < |items| ==> items[i] != "" && IsStripped(items[i]) && ',' !in items[i]
    ensures EmailItems(Join(items, ",")) == items
  {
    if items == [] {
      EmailItemsOfEmpty(Join(items, ","));
    } else {
      SplitJoin(items, ',');
      NonBlankItemsOfClean(items);
    }
  }

  /** `agent.get("phone_mobile") or ""` with the spaces removed: no space
      is left, and nothing is left exactly when the number held only
      spaces. */
  function Mobile(agent: Agent): (r: string)
    ensures ' ' !in r
    ensures r == "" <==> forall i :: 0 <= i < |agent.phoneMobile| ==> agent.phoneMobile[i] == ' '
  {
    RemoveCharEmptyIff(agent.phoneMobile, ' ');
    RemoveChar(agent.phoneMobile, ' ')
  }

  /** `agent.get("phone_office") or ""` with the spaces removed, as for
      the mobile number. */
  function Office(agent: Agent): (r: string)
    ensures ' ' !in r
    ensures r == "" <==> forall i :: 0 <= i < |agent.phoneOffice| ==> agent.phoneOffice[i] == ' '
  {
    RemoveCharEmptyIff(agent.phoneOffice, ' ');
    RemoveChar(agent.phoneOffice, ' ')
  }

  /** The addresses of the agent's `emails` field: each non-empty,
      stripped and comma-free; an empty field gives no address. */
  function EmailList(agent: Agent): (r: seq<string>)
    ensures forall i :: 0 <= i < |r| ==> r[i] != "" && IsStripped(r[i]) && ',' !in r[i]
    ensures agent.emails == "" ==> r == []
  {
    EmailItemsOfEmpty(agent.emails);
    EmailItems(agent.emails)
  }

  function Header(name: string): seq<string> {
    [BEGIN_LINE, VERSION_LINE, "N:" + name + ";;;;", "FN:" + name]
  }

  function TelLines(mobile: string, office: string): seq<string> {
    (if mobile != "" then [CELL_TAG + mobile] else [])
    + (if office != "" then [WORK_TAG + office] else [])
  }

  /** One `EMAIL;TYPE=INTERNET` line per address, in order. */
  function EmailLines(emails: seq<string>): (r: seq<string>)
    ensures |r| == |emails|
  {
    if emails == [] then [] else [EMAIL_TAG + emails[0]] + EmailLines(emails[1..])
  }

  /** The `i`-th email line carries the `i`-th address. */
  lemma {:induction false} EmailLinesAt(emails: seq<string>, i: nat)
    requires i < |emails|
    ensures EmailLines(emails)[i] == EMAIL_TAG + emails[i]
  {
    if i > 0 {
      EmailLinesAt(emails[1..], i - 1);
    }
  }

  lemma {:induction false} EmailLinesSnoc(emails: seq<string>, e: string)
    ensures EmailLines(emails + [e]) == EmailLines(emails) + [EMAIL_TAG + e]
  {
    if emails != [] {
      assert (emails + [e])[1..] == emails[1..] + [e];
      EmailLinesSnoc(emails[1..], e);
    }
  }

  /** One more address of a prefix gives one more email line. */
  lemma {:induction false} EmailLinesGrow(emails: seq<string>, i: nat)
    requires i < |emails|
    ensures EmailLines(emails[..i + 1]) == EmailLines(emails[..i]) + [EMAIL_TAG + emails[i]]
  {
    assert emails[..i + 1] == emails[..i] + [emails[i]];
    EmailLinesSnoc(emails[..i], emails[i]);
  }

  lemma {:induction false} EmailLinesWhole(emails: seq<string>)
    ensures EmailLines(emails[..|emails|]) == EmailLines(emails)
  {
    assert emails[..|emails|] == emails;
  }

  /** The content lines of a card with this display name, phone numbers
      (spaces already removed) and addresses. */
  function CardLines(name: string, mobile: string, office: string, emails: seq<string>): seq<string> {
    Header(name) + TelLines(mobile, office) + EmailLines(emails) + [END_LINE]
  }

  /** The content lines of the card, in the order the application emits
      them: the four header lines first, `END:VCARD` last, exactly one line
      per phone number and address in between, and no blank line. */
  function Lines(agent: Agent): (ls: seq<string>)
    ensures |ls| == 5 + (if Mobile(agent) != "" then 1 else 0)
                      + (if Office(agent) != "" then 1 else 0) + |EmailList(agent)|
    ensures ls[0] == BEGIN_LINE && ls[1] == VERSION_LINE
    ensures ls[2] == "N:" + agent.name + ";;;;" && ls[3] == "FN:" + agent.name
    ensures ls[|ls| - 1] == END_LINE
    ensures forall i :: 0 <= i < |ls| ==> ls[i] != ""
  {
    CardLinesShape(agent.name, Mobile(agent), Office(agent), EmailList(agent));
    CardLines(agent.name, Mobile(agent), Office(agent), EmailList(agent))
  }

  /** The card as text, the lines joined by CRLF: it starts with the four
      header lines, each followed by CRLF, and ends with CRLF and
      `END:VCARD`, with no trailing CRLF. */
  function Text(agent: Agent): (text: string)
    ensures StartsWith(text, BEGIN_LINE + CRLF + VERSION_LINE + CRLF + "N:" + agent.name + ";;;;" + CRLF + "FN:" + agent.name + CRLF)
    ensures |text| >= |CRLF + END_LINE| && text[|text| - |CRLF + END_LINE|..] == CRLF + END_LINE
  {
    CardTextShape(agent.name, Mobile(agent), Office(agent), EmailList(agent));
    Join(Lines(agent), CRLF)
  }

  /** The body of the `/vcard/<slug>.vcf` response: the display name, the
      two phone numbers without their spaces and the addresses of the agent,
      laid out by `Assemble`. */
  method Build(agent: Agent) returns (data: string)
    ensures data == Text(agent)
  {
    var name := agent.name;
    var mobile := RemoveChar(agent.phoneMobile, ' ');
    var office := RemoveChar(agent.phoneOffice, ' ');
    var emails := EmailItems(agent.emails);
    data := Assemble(name, mobile, office, emails);
  }

  /** The card built line by line as the application does: the four header
      lines, the phone lines that have a number, one line per address, the
      closing line, then the CRLF join. */
  method Assemble(name: string, mobile: string, office: string, emails: seq<string>) returns (data: string)
    ensures data == Join(CardLines(name, mobile, office, emails), CRLF)
  {
    var lines := [BEGIN_LINE, VERSION_LINE, "N:" + name + ";;;;", "FN:" + name];
    if mobile != "" {
      lines := lines + [CELL_TAG + mobile];
    }
    if office != "" {
      lines := lines + [WORK_TAG + office];
    }
    ghost var fixed := Header(name) + TelLines(mobile, office);
    assert lines == fixed;
    for i := 0 to |emails|
      invariant lines == fixed + EmailLines(emails[..i])
    {
      EmailLinesGrow(emails, i);
      lines := lines + [EMAIL_TAG + emails[i]];
    }
    EmailLinesWhole(emails);
    lines := lines + [END_LINE];
    data := Join(lines, CRLF);
  }

  /** The lines of `lines` that start with `tag`, in order. */
  function Tagged(lines: seq<string>, tag: string): seq<string> {
    if lines == [] then []
    else (if StartsWith(lines[0], tag) then [lines[0]] else []) + Tagged(lines[1..], tag)
  }

  lemma {:induction false} TaggedConcat(a: seq<string>, b: seq<string>, tag: string)
    ensures Tagged(a + b, tag) == Tagged(a, tag) + Tagged(b, tag)
  {
    if a == [] {
      assert a + b == b;
    } else {
      var head := if StartsWith(a[0], tag) then [a[0]] else [];
      assert (a + b)[0] == a[0];
      assert (a + b)[1..] == a[1..] + b;
      TaggedConcat(a[1..], b, tag);
      assert Tagged(a + b, tag) == head + Tagged(a[1..] + b, tag);
      assert Tagged(a, tag) == head + Tagged(a[1..], tag);
    }
  }

  lemma {:induction false} TaggedConcat4(a: seq<string>, b: seq<string>, c: seq<string>, d: seq<string>, tag: string)
    ensures Tagged(a + b + c + d, tag) == Tagged(a, tag) + Tagged(b, tag) + Tagged(c, tag) + Tagged(d, tag)
  {
    TaggedConcat(a + b + c, d, tag);
    TaggedConcat(a + b, c, tag);
    TaggedConcat(a, b, tag);
  }

  /** A line whose `i`-th character differs from the tag's does not carry it. */
  lemma {:induction false} NotTagged(line: string, tag: string, i: nat)
    requires i < |tag| && i < |line| && line[i] != tag[i]
    ensures !StartsWith(line, tag)
  {
    if |tag| <= |line| {
      assert line[..|tag|][i] == line[i];
    }
  }

  lemma {:induction false} EmailLinesTagged(emails: seq<string>)
    ensures Tagged(EmailLines(emails), EMAIL_TAG) == EmailLines(emails)
    ensures Tagged(EmailLines(emails), CELL_TAG) == []
    ensures Tagged(EmailLines(emails), WORK_TAG) == []
  {
    if emails != [] {
      var line := EMAIL_TAG + emails[0];
      assert line[..|EMAIL_TAG|] == EMAIL_TAG;
      NotTagged(line, CELL_TAG, 0);
      NotTagged(line, WORK_TAG, 0);
      EmailLinesTagged(emails[1..]);
    }
  }

  lemma {:induction false} HeaderTagged(name: string, tag: string)
    requires tag == CELL_TAG || tag == WORK_TAG || tag == EMAIL_TAG
    ensures Tagged(Header(name), tag) == []
    ensures Tagged([END_LINE], tag) == []
  {
    var h := Header(name);
    NotTagged(h[0], tag, 0);
    NotTagged(h[1], tag, 0);
    assert h[2][0] == 'N';
    NotTagged(h[2], tag, 0);
    assert h[3][0] == 'F';
    NotTagged(h[3], tag, 0);
    NotTagged(END_LINE, tag, 1);
    assert [END_LINE][1..] == [];
    assert h[3..][1..] == [] && h[2..][1..] == h[3..] && h[1..][1..] == h[2..];
    assert Tagged(h[3..], tag) == [];
    assert Tagged(h[2..], tag) == [];
    assert Tagged(h[1..], tag) == [];
  }

  lemma {:induction false} TelLinesTagged(mobile: string, office: string)
    ensures Tagged(TelLines(mobile, office), CELL_TAG) == (if mobile != "" then [CELL_TAG + mobile] else [])
    ensures Tagged(TelLines(mobile, office), WORK_TAG) == (if office != "" then [WORK_TAG + office] else [])
    ensures Tagged(TelLines(mobile, office), EMAIL_TAG) == []
  {
    var c := CELL_TAG + mobile;
    var w := WORK_TAG + office;
    assert c[..|CELL_TAG|] == CELL_TAG;
    assert w[..|WORK_TAG|] == WORK_TAG;
    NotTagged(c, WORK_TAG, 9);
    NotTagged(w, CELL_TAG, 9);
    NotTagged(c, EMAIL_TAG, 0);
    NotTagged(w, EMAIL_TAG, 0);
    var cs := if mobile != "" then [c] else [];
    var ws := if office != "" then [w] else [];
    TaggedConcat(cs, ws, CELL_TAG);
    TaggedConcat(cs, ws, WORK_TAG);
    TaggedConcat(cs, ws, EMAIL_TAG);
  }

  /** Which lines carry each tag: one `TEL;TYPE=CELL` line exactly when the
      mobile number is non-empty, likewise `TEL;TYPE=WORK` for the office
      number, and one `EMAIL;TYPE=INTERNET` line per address, in order. */
  lemma {:induction false} CardLinesTagged(name: string, mobile: string, office: string, emails: seq<string>)
    ensures Tagged(CardLines(name, mobile, office, emails), CELL_TAG) ==
            (if mobile != "" then [CELL_TAG + mobile] else [])
    ensures Tagged(CardLines(name, mobile, office, emails), WORK_TAG) ==
            (if office != "" then [WORK_TAG + office] else [])
    ensures Tagged(CardLines(name, mobile, office, emails), EMAIL_TAG) == EmailLines(emails)
  {
    var h := Header(name);
    var t := TelLines(mobile, office);
    var e := EmailLines(emails);
    TaggedConcat4(h, t, e, [END_LINE], CELL_TAG);
    TaggedConcat4(h, t, e, [END_LINE], WORK_TAG);
    TaggedConcat4(h, t, e, [END_LINE], EMAIL_TAG);
    HeaderTagged(name, CELL_TAG);
    HeaderTagged(name, WORK_TAG);
    HeaderTagged(name, EMAIL_TAG);
    TelLinesTagged(mobile, office);
    EmailLinesTagged(emails);
  }

  /** The same for an agent: the phone lines follow the stored numbers with
      their spaces removed, and there are as many email lines as addresses. */
  lemma {:induction false} LinesTagged(agent: Agent)
    ensures Tagged(Lines(agent), CELL_TAG) ==
            (if Mobile(agent) != "" then [CELL_TAG + Mobile(agent)] else [])
    ensures Tagged(Lines(agent), WORK_TAG) ==
            (if Office(agent) != "" then [WORK_TAG + Office(agent)] else [])
    ensures Tagged(Lines(agent), EMAIL_TAG) == EmailLines(EmailList(agent))
    ensures |Tagged(Lines(agent), EMAIL_TAG)| == |EmailList(agent)|
  {
    CardLinesTagged(agent.name, Mobile(agent), Office(agent), EmailList(agent));
  }

  /** The mobile line is present exactly when the stored mobile number has a
      character other than a space. */
  lemma {:induction false} CellLineIff(agent: Agent)
    ensures Tagged(Lines(agent), CELL_TAG) != [] <==>
            exists i :: 0 <= i < |agent.phoneMobile| && agent.phoneMobile[i] != ' '
  {
    LinesTagged(agent);
    RemoveCharEmptyIff(agent.phoneMobile, ' ');
  }

  /** The office line is present exactly when the stored office number has a
      character other than a space. */
  lemma {:induction false} WorkLineIff(agent: Agent)
    ensures Tagged(Lines(agent), WORK_TAG) != [] <==>
            exists i :: 0 <= i < |agent.phoneOffice| && agent.phoneOffice[i] != ' '
  {
    LinesTagged(agent);
    RemoveCharEmptyIff(agent.phoneOffice, ' ');
  }

  /** The frame of a card: the four header lines first, `END:VCARD` last,
      exactly one line per phone number and address in between, and no
      blank line anywhere. */
  lemma {:induction false} CardLinesShape(name: string, mobile: string, office: string, emails: seq<string>)
    ensures var ls := CardLines(name, mobile, office, emails);
            && |ls| == 5 + (if mobile != "" then 1 else 0) + (if office != "" then 1 else 0) + |emails|
            && ls[0] == BEGIN_LINE && ls[1] == VERSION_LINE
            && ls[2] == "N:" + name + ";;;;" && ls[3] == "FN:" + name
            && ls[|ls| - 1] == END_LINE
            && forall i :: 0 <= i < |ls| ==> ls[i] != ""
  {
    var h := Header(name);
    var t := TelLines(mobile, office);
    var e := EmailLines(emails);
    var ls := h + t + e + [END_LINE];
    forall i | 0 <= i < |ls|
      ensures ls[i] != ""
    {
      if i < 4 {
        assert ls[i] == h[i];
      } else if i < 4 + |t| {
        assert ls[i] == t[i - 4];
      } else if i < 4 + |t| + |e| {
        assert ls[i] == e[i - 4 - |t|];
        EmailLinesAt(emails, i - 4 - |t|);
      } else {
        assert ls[i] == END_LINE;
      }
    }
  }

  /** Joined by CRLF, at least five lines ending with `END:VCARD` give a
      text that begins with the first four lines, each followed by CRLF, and
      ends with CRLF and `END:VCARD`: there is no trailing CRLF. */
  lemma {:induction false} JoinedShape(ls: seq<string>)
    requires |ls| >= 5 && ls[|ls| - 1] == END_LINE
    ensures var text := Join(ls, CRLF);
            && StartsWith(text, ls[0] + CRLF + ls[1] + CRLF + ls[2] + CRLF + ls[3] + CRLF)
            && |text| >= |CRLF + END_LINE| && text[|text| - |CRLF + END_LINE|..] == CRLF + END_LINE
  {
    var text := Join(ls, CRLF);
    var body := ls[..|ls| - 1];
    assert ls == body + [END_LINE];
    JoinSnoc(body, END_LINE, CRLF);
    assert text == Join(body, CRLF) + (CRLF + END_LINE);
    var l1 := ls[1..];
    var l2 := l1[1..];
    var l3 := l2[1..];
    JoinPrefix(ls, CRLF);
    JoinPrefix(l1, CRLF);
    JoinPrefix(l2, CRLF);
    JoinPrefix(l3, CRLF);
    var head := ls[0] + CRLF + ls[1] + CRLF + ls[2] + CRLF + ls[3] + CRLF;
    assert l1[0] == ls[1] && l2[0] == ls[2] && l3[0] == ls[3];
    assert text == head + Join(l3[1..], CRLF);
    assert text[..|head|] == head;
  }

  /** The text of a card starts with the four header lines, each followed by
      CRLF, and ends with CRLF and `END:VCARD`. */
  lemma {:induction false} CardTextShape(name: string, mobile: string, office: string, emails: seq<string>)
    ensures var text := Join(CardLines(name, mobile, office, emails), CRLF);
            && StartsWith(text, BEGIN_LINE + CRLF + VERSION_LINE + CRLF + "N:" + name + ";;;;" + CRLF + "FN:" + name + CRLF)
            && |text| >= |CRLF + END_LINE| && text[|text| - |CRLF + END_LINE|..] == CRLF + END_LINE
  {
    CardLinesShape(name, mobile, office, emails);
    JoinedShape(CardLines(name, mobile, office, emails));
  }
}
