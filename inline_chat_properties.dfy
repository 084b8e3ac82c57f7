/**
 * Properties of the contact-list parser of src/components/InlineChat.tsx
 * over whole texts: line order and blank lines, the redundancy of trimming
 * the whole text, the cut to the first 50 records, and the round trip
 * through the "name, phone, business" rendering of the parser's result.
 * How a single line is read is in `InlineChatFields`.
 */
module InlineChatProperties {
  import opened Wrappers
  import opened Strings
  import opened InlineChat
  import opened InlineChatFields

  // ---------------------------------------------------------------------------
  // Line order and blank lines, for any per-line record function
  // ---------------------------------------------------------------------------

  /**
   * A per-line record that an empty line does not have and that whitespace
   * added at either end of a line does not change.
   */
  ghost predicate IgnoresOuterWhitespace(record: string -> Option<Contact>) {
    && record("") == None
    && (forall c, l :: IsWhitespace(c) ==> record([c] + l) == record(l))
    && (forall l, c :: IsWhitespace(c) ==> record(l + [c]) == record(l))
  }

  /** The parser's per-line record looks only at the trimmed line. */
  lemma LineContactIgnoresOuterWhitespace()
    ensures IgnoresOuterWhitespace(LineContact)
  {
    assert Trim("") == "";
    forall c, l | IsWhitespace(c) ensures LineContact([c] + l) == LineContact(l) {
      TrimWhitespacePrefix([c], l);
    }
    forall l, c | IsWhitespace(c) ensures LineContact(l + [c]) == LineContact(l) {
      TrimWhitespaceSuffix(l, [c]);
    }
  }

  /** Records of consecutive blocks of lines come out consecutively, in line order. */
  lemma {:induction false} GatherAppend(a: seq<string>, b: seq<string>, record: string -> Option<Contact>)
    ensures Gather(a + b, record) == Gather(a, record) + Gather(b, record)
    decreases |b|
  {
    if b == [] {
      assert a + b == a;
    } else {
      var b' := b[..|b| - 1];
      assert (a + b)[..|a + b| - 1] == a + b';
      GatherAppend(a, b', record);
    }
  }

  /** A single line yields its own record. */
  lemma GatherOne(line: string, record: string -> Option<Contact>)
    ensures Gather([line], record) == AsSeq(record(line))
  {
    assert Gather([line], record) == Gather([], record) + AsSeq(record(line));
  }

  /** A line without a record does not change what the other lines yield. */
  lemma GatherSkips(a: seq<string>, line: string, b: seq<string>, record: string -> Option<Contact>)
    requires record(line) == None
    ensures Gather(a + [line] + b, record) == Gather(a + b, record)
  {
    GatherAppend(a + [line], b, record);
    GatherAppend(a, [line], record);
    GatherAppend(a, b, record);
    GatherOne(line, record);
    assert Gather(a + [line], record) == Gather(a, record);
  }

  /** One whitespace character before the text changes no record. */
  lemma GatherConsWhitespace(c: char, y: string, record: string -> Option<Contact>)
    requires IgnoresOuterWhitespace(record)
    requires IsWhitespace(c)
    ensures Gather(Split([c] + y, '\n'), record) == Gather(Split(y, '\n'), record)
  {
    assert ([c] + y)[1..] == y;
    var r := Split(y, '\n');
    assert r == [r[0]] + r[1..];
    GatherAppend([r[0]], r[1..], record);
    if c == '\n' {
      assert Split([c] + y, '\n') == [""] + r;
      GatherAppend([""], r, record);
      GatherOne("", record);
    } else {
      var first := [c] + r[0];
      assert Split([c] + y, '\n') == [first] + r[1..];
      GatherAppend([first], r[1..], record);
      GatherOne(first, record);
      GatherOne(r[0], record);
      assert record(first) == record(r[0]);
    }
  }

  /** Whitespace before the text changes no record. */
  lemma {:induction false} GatherWhitespacePrefix(w: string, x: string, record: string -> Option<Contact>)
    requires IgnoresOuterWhitespace(record)
    requires forall i :: 0 <= i < |w| ==> IsWhitespace(w[i])
    ensures Gather(Split(w + x, '\n'), record) == Gather(Split(x, '\n'), record)
    decreases |w|
  {
    if w == [] {
      assert w + x == x;
    } else {
      assert w + x == [w[0]] + (w[1..] + x);
      GatherWhitespacePrefix(w[1..], x, record);
      GatherConsWhitespace(w[0], w[1..] + x, record);
    }
  }

  /** One whitespace character after the text changes no record. */
  lemma GatherSnocWhitespace(y: string, c: char, record: string -> Option<Contact>)
    requires IgnoresOuterWhitespace(record)
    requires IsWhitespace(c)
    ensures Gather(Split(y + [c], '\n'), record) == Gather(Split(y, '\n'), record)
  {
    if c == '\n' {
      GatherSnocNewline(y, record);
    } else {
      var p := Split(y, '\n');
      assert record(p[|p| - 1] + [c]) == record(p[|p| - 1]);
      GatherSnocOther(y, c, record);
    }
  }

  /** A line break after the text adds an empty last line, which has no record. */
  lemma GatherSnocNewline(y: string, record: string -> Option<Contact>)
    requires record("") == None
    ensures Gather(Split(y + ['\n'], '\n'), record) == Gather(Split(y, '\n'), record)
  {
    var p := Split(y, '\n');
    SplitSnoc(y, '\n', '\n');
    GatherAppend(p, [""], record);
    GatherOne("", record);
    assert Gather(p, record) + [] == Gather(p, record);
  }

  /** Any other character after the text extends the last line. */
  lemma GatherSnocOther(y: string, c: char, record: string -> Option<Contact>)
    requires c != '\n'
    requires var p := Split(y, '\n'); record(p[|p| - 1] + [c]) == record(p[|p| - 1])
    ensures Gather(Split(y + [c], '\n'), record) == Gather(Split(y, '\n'), record)
  {
    var p := Split(y, '\n');
    SplitSnocOther(y, c);
    GatherExtendLast(p, c, record);
  }

  /** A character other than a line break after the text extends its last line. */
  lemma SplitSnocOther(y: string, c: char)
    requires c != '\n'
    ensures var p := Split(y, '\n'); Split(y + [c], '\n') == p[..|p| - 1] + [p[|p| - 1] + [c]]
  {
    SplitSnoc(y, c, '\n');
  }

  /** Appending one whitespace character to the last line changes no record. */
  lemma GatherExtendLast(p: seq<string>, c: char, record: string -> Option<Contact>)
    requires p != [] && record(p[|p| - 1] + [c]) == record(p[|p| - 1])
    ensures Gather(p[..|p| - 1] + [p[|p| - 1] + [c]], record) == Gather(p, record)
  {
    var front, last := p[..|p| - 1], p[|p| - 1] + [c];
    calc {
      Gather(front + [last], record);
    == { GatherAppend(front, [last], record); }
      Gather(front, record) + Gather([last], record);
    == { GatherOne(last, record); }
      Gather(front, record) + AsSeq(record(p[|p| - 1]));
    == // the last step of Gather(p, record)
      Gather(p, record);
    }
  }

  /** Whitespace after the text changes no record. */
  lemma {:induction false} GatherWhitespaceSuffix(x: string, w: string, record: string -> Option<Contact>)
    requires IgnoresOuterWhitespace(record)
    requires forall i :: 0 <= i < |w| ==> IsWhitespace(w[i])
    ensures Gather(Split(x + w, '\n'), record) == Gather(Split(x, '\n'), record)
    decreases |w|
  {
    if w == [] {
      assert x + w == x;
    } else {
      assert x + w == (x + w[..|w| - 1]) + [w[|w| - 1]];
      GatherWhitespaceSuffix(x, w[..|w| - 1], record);
      GatherSnocWhitespace(x + w[..|w| - 1], w[|w| - 1], record);
    }
  }

  /** Trimming the whole text before splitting it changes no record. */
  lemma GatherTrimRedundant(text: string, record: string -> Option<Contact>)
    requires IgnoresOuterWhitespace(record)
    ensures Gather(Split(Trim(text), '\n'), record) == Gather(Split(text, '\n'), record)
  {
    var t := Trim(text);
    var u, v := TrimPieces(text);
    GatherWhitespacePrefix(u, t + v, record);
    GatherWhitespaceSuffix(t, v, record);
  }

  /** When every line has a record, the result holds every line's record, in line order. */
  lemma {:induction false} GatherEvery(lines: seq<string>, record: string -> Option<Contact>)
    requires forall i :: 0 <= i < |lines| ==> record(lines[i]).Some?
    ensures |Gather(lines, record)| == |lines|
    ensures forall i :: 0 <= i < |lines| ==> Gather(lines, record)[i] == record(lines[i]).value
    decreases |lines|
  {
    if lines != [] {
      GatherEvery(lines[..|lines| - 1], record);
    }
  }

  // ---------------------------------------------------------------------------
  // The same facts about the parser
  // ---------------------------------------------------------------------------

  /** Records of consecutive blocks of lines come out consecutively, in line order. */
  lemma CollectAppend(a: seq<string>, b: seq<string>)
    ensures Collect(a + b) == Collect(a) + Collect(b)
  {
    GatherAppend(a, b, LineContact);
  }

  /** A blank or whitespace-only line yields no record and does not change what the other lines yield. */
  lemma BlankLineIgnored(a: seq<string>, blank: string, b: seq<string>)
    requires forall i :: 0 <= i < |blank| ==> IsWhitespace(blank[i])
    ensures LineContact(blank) == None
    ensures Collect(a + [blank] + b) == Collect(a + b)
  {
    TrimSpan(blank);
    GatherSkips(a, blank, b, LineContact);
  }

  /** Trimming the whole text before splitting it (`text.trim().split('\n')`) changes no record. */
  lemma OuterTrimRedundant(text: string)
    ensures Collect(Lines(text)) == Collect(Split(text, '\n'))
  {
    LineContactIgnoresOuterWhitespace();
    GatherTrimRedundant(text, LineContact);
  }

  /**
   * Pasting the lines `lines` yields the first 50 records those lines produce,
   * in line order.
   */
  lemma ParseJoinedLines(lines: seq<string>)
    requires |lines| >= 1
    requires forall i :: 0 <= i < |lines| ==> '\n' !in lines[i]
    ensures ParseText(Join(lines, '\n')) == Cap(Collect(lines))
  {
    OuterTrimRedundant(Join(lines, '\n'));
    SplitJoin(lines, '\n');
  }

  /** Inserting a blank line into pasted text changes nothing. */
  lemma BlankLineInText(a: seq<string>, blank: string, b: seq<string>)
    requires |a + b| >= 1
    requires forall i :: 0 <= i < |a + b| ==> '\n' !in (a + b)[i]
    requires '\n' !in blank
    requires forall i :: 0 <= i < |blank| ==> IsWhitespace(blank[i])
    ensures ParseText(Join(a + [blank] + b, '\n')) == ParseText(Join(a + b, '\n'))
  {
    InsertedLineFree(a, blank, b);
    ParseJoinedLines(a + [blank] + b);
    ParseJoinedLines(a + b);
    BlankLineIgnored(a, blank, b);
  }

  /** Inserting a line without a line break into lines without one keeps them so. */
  lemma InsertedLineFree(a: seq<string>, line: string, b: seq<string>)
    requires forall i :: 0 <= i < |a + b| ==> '\n' !in (a + b)[i]
    requires '\n' !in line
    ensures forall i :: 0 <= i < |a + [line] + b| ==> '\n' !in (a + [line] + b)[i]
  {
    var all := a + [line] + b;
    forall i | 0 <= i < |all| ensures '\n' !in all[i] {
      if i < |a| {
        assert all[i] == (a + b)[i];
      } else if i > |a| {
        assert all[i] == (a + b)[i - 1];
      }
    }
  }

  /**
   * When every pasted line yields a record, the result is the records of the
   * first 50 lines, in order: more than 50 good lines give exactly 50 records.
   */
  lemma FirstFiftyOfGoodLines(lines: seq<string>)
    requires |lines| >= 1
    requires forall i :: 0 <= i < |lines| ==> '\n' !in lines[i]
    requires forall i :: 0 <= i < |lines| ==> LineContact(lines[i]).Some?
    ensures |ParseText(Join(lines, '\n'))| == if |lines| < MaxContacts then |lines| else MaxContacts
    ensures forall i :: 0 <= i < |ParseText(Join(lines, '\n'))| ==>
      ParseText(Join(lines, '\n'))[i] == LineContact(lines[i]).value
  {
    ParseJoinedLines(lines);
    GatherEvery(lines, LineContact);
    CapPrefix(Collect(lines));
  }

  /** The cut keeps the first 50 records, or all of them when there are fewer. */
  lemma CapPrefix(all: seq<Contact>)
    ensures |Cap(all)| == if |all| < MaxContacts then |all| else MaxContacts
    ensures forall i :: 0 <= i < |Cap(all)| ==> Cap(all)[i] == all[i]
  {
  }

  // ---------------------------------------------------------------------------
  // Rendering the result back as text
  // ---------------------------------------------------------------------------

  /** A record written back as one line of the first placeholder shape: `"name, phone, business"`. */
  function RenderContact(c: Contact): string {
    c.name + ", " + c.phone + ", " + c.business_name
  }

  /** The lines the records are written as, one per record. */
  function RenderLines(cs: seq<Contact>): (lines: seq<string>)
    ensures |lines| == |cs|
    ensures forall i :: 0 <= i < |cs| ==> lines[i] == RenderContact(cs[i])
  {
    seq(|cs|, i requires 0 <= i < |cs| => RenderContact(cs[i]))
  }

  /** The records written back one per line. */
  function RenderContacts(cs: seq<Contact>): string {
    Join(RenderLines(cs), '\n')
  }

  /**
   * Parsing is idempotent: the parser's result, written back one
   * `"name, phone, business"` line per record, parses to that same result.
   */
  lemma ParseRenderParse(text: string)
    ensures ParseText(RenderContacts(ParseText(text))) == ParseText(text)
  {
    ParseTextAccepted(text);
    ParseTextClean(text);
    RenderParse(ParseText(text));
  }

  /** At most 50 clean, accepted records written one per line parse back to themselves. */
  lemma RenderParse(cs: seq<Contact>)
    requires |cs| <= MaxContacts
    requires forall i :: 0 <= i < |cs| ==> IsAccepted(cs[i]) && Clean(cs[i])
    ensures ParseText(RenderContacts(cs)) == cs
  {
    if cs == [] {
      ParseEmptyText();
    } else {
      var lines := RenderLines(cs);
      forall i | 0 <= i < |lines|
        ensures '\n' !in lines[i] && LineContact(lines[i]) == Some(cs[i])
      {
        RenderedLine(cs[i]);
      }
      FirstFiftyOfGoodLines(lines);
    }
  }

  /** The empty text has no records. */
  lemma ParseEmptyText()
    ensures ParseText("") == []
  {
    assert Trim("") == "";
    assert Collect([""]) == Collect([]) + AsSeq(LineContact(""));
  }

  /** Every record the parser returns is clean: no comma, no line break, no outer whitespace. */
  lemma ParseTextClean(text: string)
    ensures forall i :: 0 <= i < |ParseText(text)| ==> Clean(ParseText(text)[i])
  {
    var lines := Lines(text);
    SplitPartsSepFree(Trim(text), '\n');
    forall i | 0 <= i < |lines| && LineContact(lines[i]).Some?
      ensures Clean(LineContact(lines[i]).value)
    {
      LineContactClean(lines[i]);
    }
    GatherKeeps(lines, LineContact, Clean);
    CapPrefix(Collect(lines));
  }

  /** A clean, accepted record written as a line has no line break and reads back as itself. */
  lemma RenderedLine(c: Contact)
    requires IsAccepted(c) && Clean(c)
    ensures '\n' !in RenderContact(c)
    ensures LineContact(RenderContact(c)) == Some(c)
  {
    RenderedNoBreak(c);
    if c.business_name == "" {
      RenderedTwoFields(c);
    } else {
      RenderedThreeFields(c);
    }
  }

  /** A record without a business name reads back from its line. */
  lemma RenderedTwoFields(c: Contact)
    requires IsAccepted(c) && Clean(c) && c.business_name == ""
    ensures LineContact(RenderContact(c)) == Some(c)
  {
    CleanBare(c.name);
    E164Bare(c.phone);
    assert RenderContact(c) == c.name + ", " + c.phone + ", " by {
      assert c.name + ", " + c.phone + ", " + "" == c.name + ", " + c.phone + ", ";
    }
    FormatEmptyBusiness(c.name, c.phone);
    assert Contact(c.name, c.phone, "") == c;
  }

  /** A record with a business name reads back from its line. */
  lemma RenderedThreeFields(c: Contact)
    requires IsAccepted(c) && Clean(c) && c.business_name != ""
    ensures LineContact(RenderContact(c)) == Some(c)
  {
    CleanBare(c.name);
    E164Bare(c.phone);
    CleanBare(c.business_name);
    FormatThreeFields(c.name, c.phone, c.business_name);
    assert Contact(c.name, c.phone, c.business_name) == c;
  }

  /** A non-empty clean field neither starts nor ends with whitespace. */
  lemma CleanBare(x: string)
    requires CleanField(x) && x != ""
    ensures Bare(x) && ',' !in x
  {
    assert Trim(x) == x;
  }

  /** An E.164 phone starts with `+` and ends with a digit. */
  lemma E164Bare(p: string)
    requires IsE164(p)
    ensures Bare(p) && ',' !in p
  {
    E164Clean(p);
  }

  /** A record with clean fields is written on one line. */
  lemma RenderedNoBreak(c: Contact)
    requires Clean(c)
    ensures '\n' !in RenderContact(c)
  {
    var n, p, b := c.name, c.phone, c.business_name;
    assert '\n' !in n + ", " + p + ", ";
  }

  /** `"name, phone, "` with an empty business name reads as `"name, phone"` does. */
  lemma FormatEmptyBusiness(name: string, phone: string)
    requires Bare(name) && Bare(phone)
    requires ',' !in name && ',' !in phone
    ensures var c := Contact(name, phone, "");
      LineContact(name + ", " + phone + ", ") == if IsAccepted(c) then Some(c) else None
  {
    var x := EmptyBusinessTrim(name, phone);
    var p := " " + phone;
    SpacedCommaFree(phone);
    SpacedField(name);
    SpacedField(phone);
    assert Trim("") == "";
    CommaLineContact(x, name, p, [""]);
  }

  /** Trimming `"name, phone, "` drops the final space and leaves the comma join of the three fields. */
  lemma EmptyBusinessTrim(name: string, phone: string) returns (x: string)
    requires Bare(name)
    ensures x == Join([name, " " + phone, ""], ',')
    ensures x != "" && Trim(x) == x
    ensures Trim(name + ", " + phone + ", ") == x
  {
    x := name + ", " + phone + ",";
    var p := " " + phone;
    assert name + ", " + phone + ", " == x + " ";
    TrimWhitespaceSuffix(x, " ");
    assert [name, p, ""][1..] == [p, ""];
    assert Join([p, ""], ',') == p + [','];
    assert x[0] == name[0] && x[|x| - 1] == ',';
    TrimNoop(x);
  }
}
