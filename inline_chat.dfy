/**
 * The free-form contact-list parser of the inline chat panel
 * (`parseTextToContacts` in src/components/InlineChat.tsx).
 *
 * Pasted text is split into lines; each non-blank line is read either as
 * comma-separated fields (name, phone, business name) or, when it has no
 * comma, as a name with an embedded phone number in the ITU-T E.164 shape
 * (`+`, a digit 1-9, then 1 to 14 digits). Records whose name is not 2 to 64
 * characters long or whose phone is not exactly of that shape are dropped,
 * and only the first 50 records are kept.
 */
module InlineChat {
  import opened Wrappers
  import opened Strings

  const MaxContacts: nat := 50
  const MinNameLength: nat := 2
  const MaxNameLength: nat := 64
  /** `\d{1,14}`: at most 14 digits follow the leading non-zero digit. */
  const MaxTrailingDigits: nat := 14

  datatype Contact = Contact(name: string, phone: string, business_name: string)

  predicate IsNonZeroDigit(c: char) {
    '1' <= c <= '9'
  }

  /** The E.164 shape `\+[1-9]\d{1,14}`, matched against the whole of `p`. */
  predicate IsE164(p: string) {
    && 3 <= |p| <= 2 + MaxTrailingDigits
    && p[0] == '+'
    && IsNonZeroDigit(p[1])
    && forall i :: 2 <= i < |p| ==> IsDigit(p[i])
  }

  // ---------------------------------------------------------------------------
  // The phone pattern: anchored test and leftmost-greedy search
  // ---------------------------------------------------------------------------

  /** The length of the run of decimal digits in `s` starting at index `i`. */
  function DigitRun(s: string, i: nat): (n: nat)
    requires i <= |s|
    ensures i + n <= |s|
    ensures forall k :: i <= k < i + n ==> IsDigit(s[k])
    ensures i + n < |s| ==> !IsDigit(s[i + n])
    decreases |s| - i
  {
    if i < |s| && IsDigit(s[i]) then 1 + DigitRun(s, i + 1) else 0
  }

  /** `/^\+[1-9]\d{1,14}$/.test(p)`, scanned left to right; it accepts exactly the E.164 shape. */
  function TestPhone(p: string): (ok: bool)
    ensures ok <==> IsE164(p)
  {
    && |p| >= 3 && p[0] == '+' && IsNonZeroDigit(p[1])
    && var n := DigitRun(p, 2); 1 <= n <= MaxTrailingDigits && 2 + n == |p|
  }

  /**
   * The length of the match of `\+[1-9]\d{1,14}` that starts at index `i`, if
   * one does. The quantifier is greedy, so this is the longest E.164-shaped
   * piece of `s` starting at `i`.
   */
  function MatchAt(s: string, i: nat): (len: Option<nat>)
    requires i <= |s|
    ensures len.Some? ==> i + len.value <= |s| && IsE164(s[i..i + len.value])
    ensures len.Some? ==> forall j :: i + len.value < j <= |s| ==> !IsE164(s[i..j])
    ensures len.None? ==> forall j :: i <= j <= |s| ==> !IsE164(s[i..j])
  {
    if i + 2 < |s| && s[i] == '+' && IsNonZeroDigit(s[i + 1]) && IsDigit(s[i + 2]) then
      var run := DigitRun(s, i + 2);
      var n := if run < MaxTrailingDigits then run else MaxTrailingDigits;
      var p := s[i..i + 2 + n];
      assert forall k :: 2 <= k < |p| ==> p[k] == s[i + k];
      assert forall j :: i + 2 + n < j <= |s| ==> s[i..j][2 + n] == s[i + 2 + n];
      Some(2 + n)
    else
      assert forall j :: i + 3 <= j <= |s| ==> s[i..j][0] == s[i] && s[i..j][1] == s[i + 1] && s[i..j][2] == s[i + 2];
      None
  }

  /** Where a match of the phone pattern lies in a line: `s[start..end]`. */
  datatype Match = Match(start: nat, end: nat)

  /** The leftmost match of the phone pattern at or after index `from`. */
  function FindPhoneFrom(s: string, from: nat): (m: Option<Match>)
    requires from <= |s|
    ensures m.Some? ==> from <= m.value.start <= m.value.end <= |s|
    ensures m.Some? ==> MatchAt(s, m.value.start) == Some(m.value.end - m.value.start)
    ensures forall j :: from <= j <= |s| && (m.None? || j < m.value.start) ==> MatchAt(s, j).None?
    decreases |s| - from
  {
    match MatchAt(s, from)
    case Some(n) => Some(Match(from, from + n))
    case None => if from == |s| then None else FindPhoneFrom(s, from + 1)
  }

  /** `s.match(/\+[1-9]\d{1,14}/)`: the first match of the phone pattern in `s`, if any. */
  function FindPhone(s: string): (m: Option<Match>)
    ensures m.Some? ==> m.value.start <= m.value.end <= |s| && IsE164(s[m.value.start..m.value.end])
  {
    FindPhoneFrom(s, 0)
  }

  /**
   * The match is the leftmost, and at that position the longest, E.164-shaped
   * piece of `s`; there is none exactly when `s` has no such piece.
   */
  lemma FindPhoneLeftmostLongest(s: string)
    ensures var m := FindPhone(s);
      m.Some? ==> forall i, j :: 0 <= i < m.value.start && i <= j <= |s| ==> !IsE164(s[i..j])
    ensures var m := FindPhone(s);
      m.Some? ==> forall j :: m.value.end < j <= |s| ==> !IsE164(s[m.value.start..j])
    ensures FindPhone(s).None? <==> forall i, j :: 0 <= i <= j <= |s| ==> !IsE164(s[i..j])
  {
    var m := FindPhone(s);
    NoMatchBefore(s, if m.Some? then m.value.start else |s| + 1);
  }

  /** No match starting before `k` means no E.164-shaped piece starting before `k`. */
  lemma NoMatchBefore(s: string, k: nat)
    requires forall j :: 0 <= j <= |s| && j < k ==> MatchAt(s, j).None?
    ensures forall i, j :: 0 <= i < k && i <= j <= |s| ==> !IsE164(s[i..j])
  {
    forall i, j | 0 <= i < k && i <= j <= |s|
      ensures !IsE164(s[i..j])
    {
      assert MatchAt(s, i).None?;
    }
  }

  // ---------------------------------------------------------------------------
  // One line
  // ---------------------------------------------------------------------------

  /** `parts.map(p => p.trim())`. */
  function TrimAll(parts: seq<string>): (r: seq<string>)
    ensures |r| == |parts|
    ensures forall i :: 0 <= i < |parts| ==> r[i] == Trim(parts[i])
  {
    seq(|parts|, i requires 0 <= i < |parts| => Trim(parts[i]))
  }

  /**
   * The fields the parser assigns for a trimmed, non-blank line, before
   * validation. With two or more comma-separated parts they are the first
   * three trimmed parts (`parts[2] || ''` is the third part or, when there is
   * none, the empty string); otherwise the phone is the first match of the
   * phone pattern and the name is the line with that phone removed, trimmed.
   * A comma-free line without a match leaves all three fields empty.
   */
  function LineFields(trimmed: string): Contact
  {
    var parts := Split(trimmed, ',');
    if |parts| >= 2 then
      Contact(Trim(parts[0]), Trim(parts[1]), if |parts| > 2 then Trim(parts[2]) else "")
    else
      match FindPhone(trimmed)
      case Some(m) =>
        var phone := trimmed[m.start..m.end];
        Contact(Trim(ReplaceFirst(trimmed, phone, "")), phone, "")
      case None => Contact("", "", "")
  }

  /** The validation a record must pass to be kept: a non-empty name of 2 to 64 characters and an E.164 phone. */
  predicate IsAccepted(c: Contact) {
    && c.name != "" && c.phone != ""
    && MinNameLength <= |c.name| <= MaxNameLength
    && IsE164(c.phone)
  }

  /** The record a trimmed line contributes, if any: none for a blank line or for fields that fail validation. */
  function TrimmedLineContact(trimmed: string): Option<Contact>
  {
    if trimmed == "" then None
    else
      var c := LineFields(trimmed);
      if IsAccepted(c) then Some(c) else None
  }

  /** The record one input line contributes, if any. */
  function LineContact(line: string): Option<Contact>
  {
    TrimmedLineContact(Trim(line))
  }

  function AsSeq(o: Option<Contact>): seq<Contact> {
    match o
    case Some(c) => [c]
    case None => []
  }

  /** The records that `record` gives for `lines`, in line order, skipping the lines that give none. */
  function Gather(lines: seq<string>, record: string -> Option<Contact>): (r: seq<Contact>)
    ensures |r| <= |lines|
  {
    if lines == [] then []
    else Gather(lines[..|lines| - 1], record) + AsSeq(record(lines[|lines| - 1]))
  }

  /** The accepted records of `lines`, in line order. */
  function Collect(lines: seq<string>): seq<Contact> {
    Gather(lines, LineContact)
  }

  /** A line's record, when it has one, passed validation. */
  lemma LineContactAccepted()
    ensures forall line :: LineContact(line).Some? ==> IsAccepted(LineContact(line).value)
  {
  }

  /** Every record gathered from lines whose records all satisfy `ok` satisfies `ok`. */
  lemma {:induction false} GatherKeeps(lines: seq<string>, record: string -> Option<Contact>, ok: Contact -> bool)
    requires forall i :: 0 <= i < |lines| ==> record(lines[i]).Some? ==> ok(record(lines[i]).value)
    ensures forall i :: 0 <= i < |Gather(lines, record)| ==> ok(Gather(lines, record)[i])
    decreases |lines|
  {
    if lines != [] {
      var front := lines[..|lines| - 1];
      assert forall i :: 0 <= i < |front| ==> front[i] == lines[i];
      GatherKeeps(front, record, ok);
    }
  }

  /** The lines of the pasted text: `text.trim().split('\n')`. */
  function Lines(text: string): seq<string> {
    Split(Trim(text), '\n')
  }

  /** `contacts.slice(0, 50)`. */
  function Cap(contacts: seq<Contact>): seq<Contact> {
    if |contacts| <= MaxContacts then contacts else contacts[..MaxContacts]
  }

  /** The result of `parseTextToContacts(text)`: the accepted records, cut to the first 50. */
  function ParseText(text: string): seq<Contact> {
    Cap(Collect(Lines(text)))
  }

  /** Gathering one more line appends that line's record. */
  lemma GatherStep(lines: seq<string>, i: nat, record: string -> Option<Contact>)
    requires i < |lines|
    ensures Gather(lines[..i + 1], record) == Gather(lines[..i], record) + AsSeq(record(lines[i]))
  {
    assert lines[..i + 1][..i] == lines[..i];
  }

  /** A non-blank line contributes its fields exactly when they pass validation. */
  lemma LineContactOfFields(line: string, fields: Contact)
    requires Trim(line) != "" && fields == LineFields(Trim(line))
    ensures LineContact(line) == if IsAccepted(fields) then Some(fields) else None
  {
  }

  /** Cutting a list of validated records keeps at most 50 of them, each validated. */
  lemma CapAccepted(all: seq<Contact>)
    requires forall i :: 0 <= i < |all| ==> IsAccepted(all[i])
    ensures |Cap(all)| <= MaxContacts
    ensures forall i :: 0 <= i < |Cap(all)| ==> IsAccepted(Cap(all)[i])
    ensures forall c :: c in Cap(all) ==> MinNameLength <= |c.name| <= MaxNameLength && IsE164(c.phone)
  {
  }

  /**
   * Every record the parser returns passed validation: its name has 2 to 64
   * characters and its phone has the E.164 shape. There are at most 50 of them.
   */
  lemma ParseTextAccepted(text: string)
    ensures |ParseText(text)| <= MaxContacts
    ensures forall i :: 0 <= i < |ParseText(text)| ==> IsAccepted(ParseText(text)[i])
    ensures forall c :: c in ParseText(text) ==>
      MinNameLength <= |c.name| <= MaxNameLength && IsE164(c.phone)
  {
    LineContactAccepted();
    GatherKeeps(Lines(text), LineContact, IsAccepted);
    CapAccepted(Collect(Lines(text)));
  }

  // ---------------------------------------------------------------------------
  // The parser as the component runs it
  // ---------------------------------------------------------------------------

  /**
   * The body of the parser's loop up to validation: `name`, `phone` and
   * `business_name` start empty and are reassigned by the comma branch or by
   * the phone-match branch.
   */
  method ReadFields(trimmed: string) returns (name: string, phone: string, businessName: string)
    ensures Contact(name, phone, businessName) == LineFields(trimmed)
  {
    var parts := TrimAll(Split(trimmed, ','));
    name, phone, businessName := "", "", "";
    if |parts| >= 2 {
      name := parts[0];
      phone := parts[1];
      businessName := if |parts| > 2 && parts[2] != "" then parts[2] else "";
    } else {
      var phoneMatch := FindPhone(trimmed);
      if phoneMatch.Some? {
        phone := trimmed[phoneMatch.value.start..phoneMatch.value.end];
        name := Trim(ReplaceFirst(trimmed, phone, ""));
      }
    }
  }

  /**
   * `parseTextToContacts`: a loop over the lines that reassigns `name`,
   * `phone` and `business_name` and appends each record that passes
   * validation, followed by `slice(0, 50)`.
   */
  method ParseTextToContacts(text: string) returns (contacts: seq<Contact>)
    ensures contacts == ParseText(text)
    ensures |contacts| <= MaxContacts
    ensures forall i :: 0 <= i < |contacts| ==> IsAccepted(contacts[i])
  {
    var lines := Lines(text);
    contacts := [];
    for i := 0 to |lines|
      invariant contacts == Collect(lines[..i])
    {
      GatherStep(lines, i, LineContact);
      var trimmed := Trim(lines[i]);
      if trimmed == "" {
        assert LineContact(lines[i]) == None;
        continue;
      }
      var name, phone, businessName := ReadFields(trimmed);
      ghost var record := LineContact(lines[i]);
      LineContactOfFields(lines[i], Contact(name, phone, businessName));
      ghost var before := contacts;
      if name != "" && phone != "" && MinNameLength <= |name| <= MaxNameLength {
        if TestPhone(phone) {
          contacts := contacts + [Contact(name, phone, businessName)];
        }
      }
      assert contacts == before + AsSeq(record);
    }
    assert lines[..|lines|] == lines;
    assert contacts == Collect(Lines(text));
    if |contacts| > MaxContacts {
      contacts := contacts[..MaxContacts];
    }
    assert contacts == ParseText(text);
    ParseTextAccepted(text);
  }
}
