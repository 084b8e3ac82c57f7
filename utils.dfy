/**
 * The helpers of src/lib/utils.ts: the version-4 UUID that `generateUUID`
 * writes when the browser has no `crypto.randomUUID`, the branding texts
 * read from the build environment, and the document title.
 *
 * The random draws `Math.random() * 16 | 0` are an input sequence of
 * nibbles, one per placeholder of the template, in template order.
 */
module Utils {
  import opened Strings

  // ---------------------------------------------------------------------------
  // UUID
  // ---------------------------------------------------------------------------

  /** The template of a version-4 UUID: 'x' is a random nibble, 'y' a nibble of the variant. */
  const UuidTemplate: string := "xxxxxxxx-xxxx-4xxx-yxxx-xxxxxxxxxxxx"

  /** A `[xy]` placeholder of the template. */
  predicate IsPlaceholder(c: char) {
    c == 'x' || c == 'y'
  }

  /** The number of placeholders in `t`. */
  function Placeholders(t: string): nat {
    if t == [] then 0 else (if IsPlaceholder(t[0]) then 1 else 0) + Placeholders(t[1..])
  }

  /** `(r & 0x3 | 0x8)`: the two variant bits `10` above the low two bits of `r`. */
  function VariantNibble(r: nat): (v: nat)
    requires r < 16
    ensures 8 <= v <= 11
    ensures v % 4 == r % 4
  {
    (((r as bv8) & 3) | 8) as nat
  }

  /** Each 0..15 draw. */
  predicate AreNibbles(rs: seq<nat>) {
    forall i :: 0 <= i < |rs| ==> rs[i] < 16
  }

  /**
   * `t.replace(/[xy]/g, ...)`: each placeholder takes the next draw, an 'x'
   * written as its hexadecimal digit and a 'y' as the digit of its variant
   * nibble; every other character is kept.
   */
  function Fill(t: string, rs: seq<nat>): (r: string)
    requires Placeholders(t) <= |rs| && AreNibbles(rs)
    ensures |r| == |t|
  {
    if t == [] then []
    else if t[0] == 'x' then [HexDigit(rs[0])] + Fill(t[1..], rs[1..])
    else if t[0] == 'y' then [HexDigit(VariantNibble(rs[0]))] + Fill(t[1..], rs[1..])
    else [t[0]] + Fill(t[1..], rs)
  }

  /**
   * Position `p` of the filled text: a placeholder is replaced using the
   * draw numbered by the placeholders before it, any other character is
   * kept.
   */
  lemma {:induction false} FillAt(t: string, rs: seq<nat>, p: nat)
    requires Placeholders(t) <= |rs| && AreNibbles(rs) && p < |t|
    ensures Placeholders(t[..p]) < |rs| || !IsPlaceholder(t[p])
    ensures t[p] == 'x' ==> Placeholders(t[..p]) < |rs| && Fill(t, rs)[p] == HexDigit(rs[Placeholders(t[..p])])
    ensures t[p] == 'y' ==> Placeholders(t[..p]) < |rs| && Fill(t, rs)[p] == HexDigit(VariantNibble(rs[Placeholders(t[..p])]))
    ensures !IsPlaceholder(t[p]) ==> Fill(t, rs)[p] == t[p]
  {
    PlaceholdersPrefix(t, p);
    if p > 0 {
      var used := if IsPlaceholder(t[0]) then 1 else 0;
      FillAt(t[1..], rs[used..], p - 1);
      assert t[1..][..p - 1] == t[1..p];
      assert t[..p] == [t[0]] + t[1..p];
      PlaceholdersCons(t[0], t[1..p]);
    }
  }

  lemma PlaceholdersCons(c: char, t: string)
    ensures Placeholders([c] + t) == (if IsPlaceholder(c) then 1 else 0) + Placeholders(t)
  {
    assert ([c] + t)[1..] == t;
  }

  /** A placeholder at `p` leaves at least one more placeholder than the ones before it. */
  lemma {:induction false} PlaceholdersPrefix(t: string, p: nat)
    requires p < |t|
    ensures Placeholders(t[..p]) + (if IsPlaceholder(t[p]) then 1 else 0) <= Placeholders(t)
  {
    if p > 0 {
      PlaceholdersPrefix(t[1..], p - 1);
      assert t[1..][..p - 1] == t[1..p];
      assert t[..p] == [t[0]] + t[1..p];
      PlaceholdersCons(t[0], t[1..p]);
    }
  }

  /** The fallback of `generateUUID` with the given draws. */
  function FallbackUuid(rs: seq<nat>): (u: string)
    requires |rs| >= 31 && AreNibbles(rs)
    ensures |u| == 36
  {
    TemplatePlaceholders();
    Fill(UuidTemplate, rs)
  }

  /** `n` placeholders 'x'. */
  function Xs(n: nat): (r: string)
    ensures |r| == n && forall i :: 0 <= i < n ==> r[i] == 'x'
  {
    seq(n, i => 'x')
  }

  lemma {:induction false} PlaceholdersXs(n: nat)
    ensures Placeholders(Xs(n)) == n
  {
    if n > 0 {
      assert Xs(n)[1..] == Xs(n - 1);
      PlaceholdersXs(n - 1);
    }
  }

  lemma TemplateGroups()
    ensures UuidTemplate == Xs(8) + ("-" + (Xs(4) + ("-4" + (Xs(3) + ("-y" + (Xs(3) + ("-" + Xs(12))))))))
  {
  }

  lemma TemplatePlaceholders()
    ensures |UuidTemplate| == 36
    ensures Placeholders(UuidTemplate) == 31
  {
    TemplateGroups();
    GroupsPlaceholders();
  }

  lemma GroupsPlaceholders()
    ensures Placeholders(Xs(8) + ("-" + (Xs(4) + ("-4" + (Xs(3) + ("-y" + (Xs(3) + ("-" + Xs(12))))))))) == 31
  {
    var g7 := "-" + Xs(12);
    var g6 := Xs(3) + g7;
    var g5 := "-y" + g6;
    var g4 := Xs(3) + g5;
    var g3 := "-4" + g4;
    var g2 := Xs(4) + g3;
    var g1 := "-" + g2;
    PlaceholdersXs(3);
    PlaceholdersXs(4);
    PlaceholdersXs(8);
    PlaceholdersXs(12);
    PlaceholdersAppend("-", Xs(12));
    PlaceholdersAppend(Xs(3), g7);
    PlaceholdersAppend("-y", g6);
    PlaceholdersAppend(Xs(3), g5);
    PlaceholdersAppend("-4", g4);
    PlaceholdersAppend(Xs(4), g3);
    PlaceholdersAppend("-", g2);
    PlaceholdersAppend(Xs(8), g1);
  }

  lemma {:induction false} PlaceholdersAppend(a: string, b: string)
    ensures Placeholders(a + b) == Placeholders(a) + Placeholders(b)
  {
    if a == [] {
      assert a + b == b;
    } else {
      assert (a + b)[1..] == a[1..] + b;
      PlaceholdersAppend(a[1..], b);
    }
  }

  /** The character at position `p` of the template, written out by position. */
  function TemplateChar(p: nat): char {
    if p == 8 || p == 13 || p == 18 || p == 23 then '-'
    else if p == 14 then '4'
    else if p == 19 then 'y'
    else 'x'
  }

  lemma TemplateChars()
    ensures forall p :: 0 <= p < |UuidTemplate| ==> UuidTemplate[p] == TemplateChar(p)
  {
  }

  /** The characters `toString(16)` writes: the digits and 'a' to 'f'. */
  predicate IsLowerHex(c: char) {
    '0' <= c <= '9' || 'a' <= c <= 'f'
  }

  lemma HexDigitIsLowerHex(d: nat)
    requires d < 16
    ensures IsLowerHex(HexDigit(d))
  {
  }

  /** `t` is the UUID template, position by position. */
  predicate IsUuidTemplate(t: string) {
    |t| == 36 && forall p :: 0 <= p < 36 ==> t[p] == TemplateChar(p)
  }

  /**
   * The fallback UUID has the layout of a version-4 UUID: dashes at 8, 13,
   * 18 and 23, the version digit '4' at 14, a variant digit among '8', '9',
   * 'a' and 'b' at 19, and lowercase hexadecimal digits elsewhere.
   */
  lemma FallbackUuidLayout(rs: seq<nat>)
    requires |rs| >= 31 && AreNibbles(rs)
    ensures var u := FallbackUuid(rs);
      && u[8] == '-' && u[13] == '-' && u[18] == '-' && u[23] == '-'
      && u[14] == '4'
      && u[19] in {'8', '9', 'a', 'b'}
      && forall p :: 0 <= p < 36 && p !in {8, 13, 18, 23} ==> IsLowerHex(u[p])
  {
    TemplatePlaceholders();
    TemplateChars();
    FilledLayout(UuidTemplate, rs);
  }

  lemma FilledLayout(t: string, rs: seq<nat>)
    requires IsUuidTemplate(t) && Placeholders(t) <= |rs| && AreNibbles(rs)
    ensures var u := Fill(t, rs);
      && u[8] == '-' && u[13] == '-' && u[18] == '-' && u[23] == '-'
      && u[14] == '4'
      && u[19] in {'8', '9', 'a', 'b'}
      && forall p :: 0 <= p < 36 && p !in {8, 13, 18, 23} ==> IsLowerHex(u[p])
  {
    FillAt(t, rs, 8);
    FillAt(t, rs, 13);
    FillAt(t, rs, 18);
    FillAt(t, rs, 23);
    FillAt(t, rs, 14);
    FillAt(t, rs, 19);
    FilledHex(t, rs);
  }

  lemma FilledHex(t: string, rs: seq<nat>)
    requires IsUuidTemplate(t) && Placeholders(t) <= |rs| && AreNibbles(rs)
    ensures forall p :: 0 <= p < 36 && p !in {8, 13, 18, 23} ==> IsLowerHex(Fill(t, rs)[p])
  {
    forall p | 0 <= p < 36 && p !in {8, 13, 18, 23}
      ensures IsLowerHex(Fill(t, rs)[p])
    {
      FillAt(t, rs, p);
      if IsPlaceholder(t[p]) {
        var r := rs[Placeholders(t[..p])];
        HexDigitIsLowerHex(r);
        HexDigitIsLowerHex(VariantNibble(r));
      }
    }
  }

  /**
   * Every 'x' of the template is the hexadecimal digit of its own draw: the
   * draw numbered by the placeholders before it.
   */
  lemma FallbackUuidDigits(rs: seq<nat>, p: nat)
    requires |rs| >= 31 && AreNibbles(rs) && p < 36 && TemplateChar(p) == 'x'
    ensures Placeholders(UuidTemplate[..p]) < 31
    ensures FallbackUuid(rs)[p] == HexDigit(rs[Placeholders(UuidTemplate[..p])])
  {
    TemplatePlaceholders();
    TemplateChars();
    FilledDigit(UuidTemplate, rs, p);
  }

  lemma FilledDigit(t: string, rs: seq<nat>, p: nat)
    requires IsUuidTemplate(t) && Placeholders(t) <= |rs| && AreNibbles(rs) && p < 36 && TemplateChar(p) == 'x'
    ensures Placeholders(t[..p]) < Placeholders(t)
    ensures Fill(t, rs)[p] == HexDigit(rs[Placeholders(t[..p])])
  {
    FillAt(t, rs, p);
    PlaceholdersPrefix(t, p);
  }

  // ---------------------------------------------------------------------------
  // Branding and title
  // ---------------------------------------------------------------------------

  const AppNameKey: string := "VITE_APP_NAME"
  const CompanyNameKey: string := "VITE_COMPANY_NAME"
  const AppDescriptionKey: string := "VITE_APP_DESCRIPTION"
  const SupportEmailKey: string := "VITE_SUPPORT_EMAIL"

  const DefaultAppName: string := "AutoLynx AI Caller Portal"
  const DefaultCompanyName: string := "AutoLynx"
  const DefaultAppDescription: string := "Professional AI-Powered Cold Calling Campaign Management"
  const DefaultSupportEmail: string := "support@autolynx.ai"

  datatype Branding = Branding(appName: string, companyName: string, appDescription: string, supportEmail: string)

  /** `import.meta.env[key] || fallback`: the environment value unless it is missing or empty. */
  function EnvOr(env: map<string, string>, key: string, fallback: string): string
  {
    if key in env && env[key] != "" then env[key] else fallback
  }

  /** `getBranding`: each text from its environment variable, or its fixed default. */
  function GetBranding(env: map<string, string>): Branding
  {
    Branding(
      EnvOr(env, AppNameKey, DefaultAppName), EnvOr(env, CompanyNameKey, DefaultCompanyName),
      EnvOr(env, AppDescriptionKey, DefaultAppDescription), EnvOr(env, SupportEmailKey, DefaultSupportEmail))
  }

  /** No branding text is ever empty: an empty environment value falls back to the default. */
  lemma BrandingNeverEmpty(env: map<string, string>)
    ensures var b := GetBranding(env);
      b.appName != "" && b.companyName != "" && b.appDescription != "" && b.supportEmail != ""
  {
  }

  /** A branding variable that is set and non-empty is the text shown, whatever the others hold. */
  lemma BrandingFromEnv(env: map<string, string>)
    ensures var b := GetBranding(env);
      && (AppNameKey in env && env[AppNameKey] != "" ==> b.appName == env[AppNameKey])
      && (CompanyNameKey in env && env[CompanyNameKey] != "" ==> b.companyName == env[CompanyNameKey])
      && (AppDescriptionKey in env && env[AppDescriptionKey] != "" ==> b.appDescription == env[AppDescriptionKey])
      && (SupportEmailKey in env && env[SupportEmailKey] != "" ==> b.supportEmail == env[SupportEmailKey])
  {
  }

  /** An environment without branding variables gives the four defaults. */
  lemma DefaultBranding(env: map<string, string>)
    requires AppNameKey !in env && CompanyNameKey !in env && AppDescriptionKey !in env && SupportEmailKey !in env
    ensures GetBranding(env) == Branding(DefaultAppName, DefaultCompanyName, DefaultAppDescription, DefaultSupportEmail)
  {
  }

  /**
   * The title `updateDocumentTitle` sets: the application name alone when
   * the page title is missing or empty, else the page title, " - " and the
   * application name.
   */
  function DocumentTitle(pageTitle: string, env: map<string, string>): string
  {
    var appName := GetBranding(env).appName;
    if pageTitle != [] then pageTitle + " - " + appName else appName
  }

  /** Every title ends with the application name. */
  lemma TitleEndsWithAppName(pageTitle: string, env: map<string, string>)
    ensures var title, appName := DocumentTitle(pageTitle, env), GetBranding(env).appName;
      |appName| <= |title| && title[|title| - |appName|..] == appName
  {
  }

  /** Different non-empty page titles give different document titles. */
  lemma TitleDeterminesPageTitle(p: string, q: string, env: map<string, string>)
    requires p != [] && q != [] && DocumentTitle(p, env) == DocumentTitle(q, env)
    ensures p == q
  {
    var suffix := " - " + GetBranding(env).appName;
    assert DocumentTitle(p, env) == p + suffix;
    assert DocumentTitle(q, env) == q + suffix;
    assert p == (p + suffix)[..|p|];
    assert q == (q + suffix)[..|q|];
  }

  /** The browser document, as far as its title goes. */
  class Document {
    var title: string

    constructor (title: string)
      ensures this.title == title
    {
      this.title := title;
    }

    /** `updateDocumentTitle(pageTitle)`: the title is replaced by the composed one. */
    method UpdateDocumentTitle(pageTitle: string, env: map<string, string>)
      modifies this
      ensures title == DocumentTitle(pageTitle, env)
    {
      title := DocumentTitle(pageTitle, env);
    }
  }
}
