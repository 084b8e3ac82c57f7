/**
 * How the contact-list parser of src/components/InlineChat.tsx reads one
 * line: the comma-separated branch, the embedded-phone branch, the fields
 * that neither branch can produce, and the example lines the input
 * placeholder shows.
 */
module InlineChatFields {
  import opened Wrappers
  import opened Strings
  import opened InlineChat

  // ---------------------------------------------------------------------------
  // The comma branch
  // ---------------------------------------------------------------------------

  /**
   * A line with at least one comma gives the first field as the name, the
   * second as the phone and the third, if any, as the business name, each
   * trimmed; further fields are ignored.
   */
  lemma CommaLineFields(name: string, phone: string, rest: seq<string>)
    requires ',' !in name && ',' !in phone
    requires forall i :: 0 <= i < |rest| ==> ',' !in rest[i]
    ensures LineFields(Join([name, phone] + rest, ',')) ==
      Contact(Trim(name), Trim(phone), if rest == [] then "" else Trim(rest[0]))
  {
    var fields := [name, phone] + rest;
    CommaFreeFields(name, phone, rest);
    SplitJoin(fields, ',');
    if rest != [] {
      assert fields[2] == rest[0];
    }
  }

  /** Comma-free fields stay comma-free when put in one list. */
  lemma CommaFreeFields(name: string, phone: string, rest: seq<string>)
    requires ',' !in name && ',' !in phone
    requires forall i :: 0 <= i < |rest| ==> ',' !in rest[i]
    ensures forall i :: 0 <= i < |[name, phone] + rest| ==> ',' !in ([name, phone] + rest)[i]
  {
    var fields := [name, phone] + rest;
    forall i | 0 <= i < |fields| ensures ',' !in fields[i] {
      if i >= 2 {
        assert fields[i] == rest[i - 2];
      }
    }
  }

  // ---------------------------------------------------------------------------
  // The embedded-phone branch
  // ---------------------------------------------------------------------------

  /**
   * The text of the leftmost match occurs nowhere earlier in the line, so
   * `trimmed.replace(phone, '')` removes exactly the matched piece.
   */
  lemma MatchIsFirstOccurrence(s: string, m: Match)
    requires FindPhone(s) == Some(m)
    ensures IndexOf(s, s[m.start..m.end]) == Some(m.start)
  {
    FindPhoneLeftmostLongest(s);
    var w := s[m.start..m.end];
    assert OccursAt(w, s, m.start);
    var k := IndexOf(s, w).value;
    assert s[k..k + |w|] == w;
    assert IsE164(s[k..k + |w|]);
  }

  /**
   * A comma-free line with a match of the phone pattern gives the matched
   * piece as the phone and the rest of the line, trimmed, as the name; the
   * business name is empty.
   */
  lemma PhoneLineFields(t: string)
    requires ',' !in t
    requires FindPhone(t).Some?
    ensures var m := FindPhone(t).value;
      LineFields(t) == Contact(Trim(t[..m.start] + t[m.end..]), t[m.start..m.end], "")
  {
    SplitOnePart(t, ',');
    PhoneBranch(t);
    RemoveMatch(t);
  }

  /** A line with fewer than two comma-separated parts takes the phone-match branch. */
  lemma PhoneBranch(t: string)
    requires |Split(t, ',')| < 2
    requires FindPhone(t).Some?
    ensures var m := FindPhone(t).value; var phone := t[m.start..m.end];
      LineFields(t) == Contact(Trim(ReplaceFirst(t, phone, "")), phone, "")
  {
  }

  /** Removing the matched phone's text removes the matched piece. */
  lemma RemoveMatch(t: string)
    requires FindPhone(t).Some?
    ensures var m := FindPhone(t).value;
      ReplaceFirst(t, t[m.start..m.end], "") == t[..m.start] + t[m.end..]
  {
    var m := FindPhone(t).value;
    MatchIsFirstOccurrence(t, m);
    RemoveFirstAt(t, t[m.start..m.end], m.start);
  }

  /** A comma-free line without any E.164-shaped piece gives no record. */
  lemma NoPhoneNoRecord(t: string)
    requires ',' !in t
    requires forall i, j :: 0 <= i <= j <= |t| ==> !IsE164(t[i..j])
    ensures TrimmedLineContact(t) == None
  {
    SplitOnePart(t, ',');
    FindPhoneLeftmostLongest(t);
  }

  /**
   * Whatever branch a trimmed line `t` takes, a kept phone is a piece of
   * `t`; `PhoneFromInputLine` states the same of the untrimmed input line.
   */
  lemma PhoneFromLine(t: string)
    requires TrimmedLineContact(t).Some?
    ensures IsSubstring(TrimmedLineContact(t).value.phone, t)
  {
    assert TrimmedLineContact(t).value == LineFields(t);
    if |Split(t, ',')| >= 2 {
      CommaPhoneInLine(t);
    } else {
      MatchPhoneInLine(t);
    }
  }

  /** A kept phone is a piece of the input line it was read from: phones are never rewritten or prefixed. */
  lemma PhoneFromInputLine(line: string)
    requires LineContact(line).Some?
    ensures IsSubstring(LineContact(line).value.phone, line)
  {
    PhoneFromLine(Trim(line));
    TrimIsSubstring(line);
    SubstringTrans(LineContact(line).value.phone, Trim(line), line);
  }

  /** In the comma branch the phone is the trimmed second field, a piece of the line. */
  lemma CommaPhoneInLine(t: string)
    requires |Split(t, ',')| >= 2
    ensures IsSubstring(LineFields(t).phone, t)
  {
    var parts := Split(t, ',');
    assert LineFields(t).phone == Trim(parts[1]);
    JoinSplit(t, ',');
    JoinPartIsSubstring(parts, 1, ',');
    TrimIsSubstring(parts[1]);
    SubstringTrans(Trim(parts[1]), parts[1], t);
  }

  /** In the phone-match branch the phone, when there is one, is the matched piece of the line. */
  lemma MatchPhoneInLine(t: string)
    requires |Split(t, ',')| < 2
    ensures LineFields(t).phone == "" || IsSubstring(LineFields(t).phone, t)
  {
    if FindPhone(t).Some? {
      var m := FindPhone(t).value;
      PhoneBranch(t);
      assert OccursAt(t[m.start..m.end], t, m.start);
    }
  }

  // ---------------------------------------------------------------------------
  // What a kept record looks like
  // ---------------------------------------------------------------------------

  /**
   * A field that can be written back as one comma-separated field of one
   * line: no comma, no line break and no whitespace at either end.
   */
  predicate CleanField(x: string) {
    ',' !in x && '\n' !in x && Trim(x) == x
  }

  /** Every field of the record is clean. */
  predicate Clean(c: Contact) {
    CleanField(c.name) && CleanField(c.phone) && CleanField(c.business_name)
  }

  /** Trimming a piece of a comma- and line-break-free text gives a clean field. */
  lemma TrimClean(x: string)
    requires ',' !in x && '\n' !in x
    ensures CleanField(Trim(x))
  {
    TrimKeepsAbsent(x, ',');
    TrimKeepsAbsent(x, '\n');
    TrimIdempotent(x);
  }

  /** An E.164 phone holds only `+` and digits, so it is a clean field. */
  lemma E164Clean(p: string)
    requires IsE164(p)
    ensures CleanField(p)
  {
    TrimNoop(p);
  }

  /** What is left of a line around a removed piece holds no character the line does not. */
  lemma RemovedPieceAbsent(t: string, a: nat, b: nat, c: char)
    requires a <= b <= |t| && c !in t
    ensures c !in t[..a] + t[b..]
  {
    var r := t[..a] + t[b..];
    forall i | 0 <= i < |r| ensures r[i] != c {
      if i < a {
        assert r[i] == t[i];
      } else {
        assert r[i] == t[b + i - a];
      }
    }
  }

  /** Every field of the comma branch is clean. */
  lemma CommaFieldsClean(t: string, k: nat)
    requires '\n' !in t
    requires k < |Split(t, ',')|
    ensures CleanField(Trim(Split(t, ',')[k]))
  {
    var parts := Split(t, ',');
    JoinSplit(t, ',');
    SplitPartsSepFree(t, ',');
    JoinPartIsSubstring(parts, k, ',');
    AbsentFromSubstring(parts[k], t, '\n');
    TrimClean(parts[k]);
  }

  /** A record kept from a line without a line break is clean. */
  lemma TrimmedLineContactClean(t: string)
    requires '\n' !in t
    requires TrimmedLineContact(t).Some?
    ensures Clean(TrimmedLineContact(t).value)
  {
    var c := LineFields(t);
    assert TrimmedLineContact(t).value == c;
    E164Clean(c.phone);
    if |Split(t, ',')| >= 2 {
      CommaBranchClean(t);
    } else {
      MatchBranchClean(t);
    }
  }

  /** The name and business name of the comma branch are clean. */
  lemma CommaBranchClean(t: string)
    requires '\n' !in t
    requires |Split(t, ',')| >= 2
    ensures CleanField(LineFields(t).name) && CleanField(LineFields(t).business_name)
  {
    var parts := Split(t, ',');
    CommaFieldsClean(t, 0);
    if |parts| > 2 {
      CommaFieldsClean(t, 2);
    } else {
      assert Trim("") == "";
    }
  }

  /** The name of the phone-match branch is clean and its business name is empty. */
  lemma MatchBranchClean(t: string)
    requires '\n' !in t
    requires |Split(t, ',')| < 2
    ensures CleanField(LineFields(t).name) && LineFields(t).business_name == ""
  {
    SplitOnePart(t, ',');
    match FindPhone(t)
    case Some(m) =>
      PhoneLineFields(t);
      RemovedPieceAbsent(t, m.start, m.end, ',');
      RemovedPieceAbsent(t, m.start, m.end, '\n');
      TrimClean(t[..m.start] + t[m.end..]);
    case None =>
      assert Trim("") == "";
  }

  /** A record kept from a pasted line is clean. */
  lemma LineContactClean(line: string)
    requires '\n' !in line
    requires LineContact(line).Some?
    ensures Clean(LineContact(line).value)
  {
    TrimKeepsAbsent(line, '\n');
    TrimmedLineContactClean(Trim(line));
  }

  // ---------------------------------------------------------------------------
  // The placeholder's examples
  // ---------------------------------------------------------------------------

  /** The record of a trimmed line with at least one comma, from its fields. */
  lemma CommaLineContact(line: string, name: string, phone: string, rest: seq<string>)
    requires ',' !in name && ',' !in phone
    requires forall i :: 0 <= i < |rest| ==> ',' !in rest[i]
    requires line == Join([name, phone] + rest, ',')
    requires line != "" && Trim(line) == line
    ensures var c := Contact(Trim(name), Trim(phone), if rest == [] then "" else Trim(rest[0]));
      LineContact(line) == if IsAccepted(c) then Some(c) else None
  {
    CommaLineFields(name, phone, rest);
  }

  /** A non-empty field that neither starts nor ends with whitespace. */
  predicate Bare(x: string) {
    x != [] && !IsWhitespace(x[0]) && !IsWhitespace(x[|x| - 1])
  }

  /** A field written after `", "` is read back without the space. */
  lemma SpacedField(x: string)
    requires Bare(x)
    ensures Trim(x) == x && Trim(" " + x) == x
  {
    TrimNoop(x);
    TrimWhitespacePrefix(" ", x);
  }

  /** A comma-free field after a space is still comma-free. */
  lemma SpacedCommaFree(x: string)
    requires ',' !in x
    ensures ',' !in " " + x
  {
    assert (" " + x)[1..] == x;
  }

  /** Three fields written with `", "` between them are their comma join. */
  lemma ThreeFieldJoin(a: string, b: string, c: string)
    ensures a + ", " + b + ", " + c == Join([a, " " + b, " " + c], ',')
  {
    var b', c' := " " + b, " " + c;
    assert [a, b', c'][1..] == [b', c'];
    assert Join([b', c'], ',') == b' + [','] + c';
    assert a + ", " + b == a + [','] + b';
    assert a + ", " + b + ", " + c == a + [','] + b' + [','] + c';
  }

  /** A line that starts like `first` and ends like `last`, both bare, is already trimmed. */
  lemma BareLine(first: string, line: string, last: string)
    requires Bare(first) && Bare(last)
    requires |first| <= |line| && |last| <= |line|
    requires line[..|first|] == first && line[|line| - |last|..] == last
    ensures Trim(line) == line
  {
    assert line[0] == first[0];
    assert line[|line| - 1] == last[|last| - 1];
    TrimNoop(line);
  }

  /** The first placeholder shape, `"name, phone, business"`, gives the three fields. */
  lemma FormatThreeFields(name: string, phone: string, business: string)
    requires Bare(name) && Bare(phone) && Bare(business)
    requires ',' !in name && ',' !in phone && ',' !in business
    ensures var c := Contact(name, phone, business);
      LineContact(name + ", " + phone + ", " + business) == if IsAccepted(c) then Some(c) else None
  {
    var line := name + ", " + phone + ", " + business;
    var p, b := " " + phone, " " + business;
    SpacedCommaFree(phone);
    SpacedCommaFree(business);
    ThreeFieldJoin(name, phone, business);
    BareLine(name, line, business);
    SpacedField(name);
    SpacedField(phone);
    SpacedField(business);
    CommaLineContact(line, name, p, [b]);
  }

  /** The second placeholder shape, `"name, phone"`, gives an empty business name. */
  lemma FormatTwoFields(name: string, phone: string)
    requires Bare(name) && Bare(phone)
    requires ',' !in name && ',' !in phone
    ensures var c := Contact(name, phone, "");
      LineContact(name + ", " + phone) == if IsAccepted(c) then Some(c) else None
  {
    var line := name + ", " + phone;
    var p := " " + phone;
    SpacedCommaFree(phone);
    assert Join([name, p], ',') == line;
    TrimNoop(line);
    SpacedField(name);
    SpacedField(phone);
    CommaLineContact(line, name, p, []);
  }

  /**
   * The third placeholder shape, `"phone name"` with an E.164 phone, gives
   * that phone and that name whenever the name has an acceptable length.
   */
  lemma FormatPhoneFirst(phone: string, name: string)
    requires IsE164(phone)
    requires Bare(name) && ',' !in name
    ensures LineContact(phone + " " + name) ==
      if MinNameLength <= |name| <= MaxNameLength then Some(Contact(name, phone, "")) else None
  {
    var line := phone + " " + name;
    TrimNoop(line);
    PhoneFirstFields(phone, name);
  }

  /** The fields of a `"phone name"` line, before validation. */
  lemma PhoneFirstFields(phone: string, name: string)
    requires IsE164(phone)
    requires Bare(name) && ',' !in name
    ensures LineFields(phone + " " + name) == Contact(name, phone, "")
  {
    var line := phone + " " + name;
    var n := |phone|;
    PhoneNamePieces(phone, name);
    PhoneFirstCommaFree(phone, name);
    PhoneFirstMatch(line, n);
    PhoneLineFields(line);
    SpacedField(name);
  }

  /** The pieces of a `"phone name"` line around its phone. */
  lemma PhoneNamePieces(phone: string, name: string)
    ensures var line, n := phone + " " + name, |phone|;
      && n < |line| && line[..n] == phone && line[0..n] == phone && line[n] == ' '
      && line[..0] + line[n..] == " " + name
  {
    var line, n := phone + " " + name, |phone|;
    assert line[..n] == phone;
    assert line[..0] + line[n..] == line[n..];
  }

  /** A `"phone name"` line with a comma-free name has no comma. */
  lemma PhoneFirstCommaFree(phone: string, name: string)
    requires IsE164(phone) && ',' !in name
    ensures ',' !in phone + " " + name
  {
    var line := phone + " " + name;
    var n := |phone|;
    forall i | 0 <= i < |line| ensures line[i] != ',' {
      if i < n {
        assert line[i] == phone[i];
      } else if i > n {
        assert line[i] == name[i - n - 1];
      }
    }
  }

  /**
   * An E.164 piece at the front of a line, followed by a non-digit, is the
   * match of the phone pattern.
   */
  lemma PhoneFirstMatch(line: string, n: nat)
    requires n < |line| && IsE164(line[..n]) && !IsDigit(line[n])
    ensures FindPhone(line) == Some(Match(0, n))
  {
    var p := line[..n];
    assert forall k :: 0 <= k < n ==> p[k] == line[k];
    var run := DigitRun(line, 2);
    assert 2 + run == n by {
      assert forall k :: 2 <= k < n ==> IsDigit(line[k]);
    }
  }

  /** `"John Doe, +1234567890, Acme Corp"` gives all three fields. */
  lemma ExampleThreeFields()
    ensures LineContact("John Doe" + ", " + "+1234567890" + ", " + "Acme Corp") ==
      Some(Contact("John Doe", "+1234567890", "Acme Corp"))
  {
    assert IsE164("+1234567890");
    FormatThreeFields("John Doe", "+1234567890", "Acme Corp");
  }

  /** `"Jane Smith, +1987654321"` gives an empty business name. */
  lemma ExampleTwoFields()
    ensures LineContact("Jane Smith" + ", " + "+1987654321") ==
      Some(Contact("Jane Smith", "+1987654321", ""))
  {
    assert IsE164("+1987654321");
    FormatTwoFields("Jane Smith", "+1987654321");
  }

  /** `"+1555123456 Bob Johnson"` finds the phone at the front and the name after it. */
  lemma ExamplePhoneFirst()
    ensures LineContact("+1555123456" + " " + "Bob Johnson") ==
      Some(Contact("Bob Johnson", "+1555123456", ""))
  {
    assert IsE164("+1555123456");
    FormatPhoneFirst("+1555123456", "Bob Johnson");
  }

  /** A one-character name is dropped. */
  lemma ExampleShortName()
    ensures LineContact("A" + ", " + "+1234567890") == None
  {
    FormatTwoFields("A", "+1234567890");
  }

  /** A phone without the leading `+` is dropped. */
  lemma ExampleNoPlus()
    ensures LineContact("Jane Smith" + ", " + "1234567890") == None
  {
    FormatTwoFields("Jane Smith", "1234567890");
  }
}
