/**
 * Team-name normalisation (`normalize_team`): the join key under which a
 * results-table name and a pot-table name are matched.
 */
module Names {
  import opened Common
  import opened Text

  const NoBreakSpace: char := '\U{A0}'
  const NoBreakHyphen: char := '\U{2011}'

  /** The static alias table `name_map`: exact-match overrides applied after cleaning. */
  const NameMap: map<string, string> := map[
    "ajax" := "afc ajax",
    "union saint-gilloise" := "union saint-gilloise"
  ]

  /** A string the cleaning steps leave unchanged. */
  predicate Canonical(s: string) {
    NoBreakSpace !in s && NoBreakHyphen !in s && Unpadded(s) && NoUpper(s)
  }

  /** Every alias is canonical and is its own alias if it is a key at all. */
  predicate AliasesCanonical(m: map<string, string>) {
    forall k :: k in m ==> Canonical(m[k]) && (m[k] in m ==> m[m[k]] == m[k])
  }

  /** The two substitutions of `normalize_team`, before stripping. */
  function Substitute(s: string): (r: string)
    ensures |r| == |s|
    ensures NoBreakSpace !in r && NoBreakHyphen !in r
    ensures forall i :: 0 <= i < |s| && s[i] != NoBreakSpace && s[i] != NoBreakHyphen ==> r[i] == s[i]
    ensures forall i :: 0 <= i < |s| ==> r[i] == SubstituteChar(s[i])
  {
    Replace(Replace(s, NoBreakSpace, ' '), NoBreakHyphen, '-')
  }

  /** What one character becomes: a no-break space a space, a no-break hyphen a hyphen. */
  function SubstituteChar(c: char): char {
    if c == NoBreakSpace then ' ' else if c == NoBreakHyphen then '-' else c
  }

  /** Substitute, strip and lower-case. */
  function Clean(s: string): (r: string)
    ensures Canonical(r)
  {
    var t := Substitute(s);
    StripAbsent(t, NoBreakSpace);
    StripAbsent(t, NoBreakHyphen);
    LowerAbsent(Strip(t), NoBreakSpace);
    LowerAbsent(Strip(t), NoBreakHyphen);
    LowerUnpadded(Strip(t));
    Lower(Strip(t))
  }

  /** The alias of `s` if it has one, else `s` itself (`name_map.get(name, name)`). */
  function Alias(s: string): (r: string)
    ensures s !in NameMap ==> r == s
    ensures s in NameMap ==> Canonical(r) && (r in NameMap ==> NameMap[r] == r)
    ensures Canonical(s) ==> Canonical(r)
  {
    NameMapCanonical();
    if s in NameMap then NameMap[s] else s
  }

  /** `normalize_team`: a missing name gives "", any other name its cleaned, aliased form. */
  function NormalizeTeam(name: Option<string>): (r: string)
    ensures name.None? ==> r == ""
    ensures Canonical(r)
  {
    NameMapCanonical();
    match name
    case None => ""
    case Some(s) => Alias(Clean(s))
  }

  lemma NameMapCanonical()
    ensures AliasesCanonical(NameMap)
  {
    AliasesPlain();
    PlainCanonical("afc ajax");
    PlainCanonical("union saint-gilloise");
    assert "afc ajax" != "ajax" by {
      assert "afc ajax"[1] != "ajax"[1];
    }
    assert "afc ajax" != "union saint-gilloise" by {
      assert "afc ajax"[0] != "union saint-gilloise"[0];
    }
  }

  lemma AliasesPlain()
    ensures Plain("afc ajax") && Plain("union saint-gilloise")
  {
  }

  /** Lower-case ASCII letters, inner spaces and hyphens: the shape of every alias. */
  predicate Plain(s: string) {
    && (forall i :: 0 <= i < |s| ==> 'a' <= s[i] <= 'z' || s[i] == ' ' || s[i] == '-')
    && (s != [] ==> s[0] != ' ' && s[|s| - 1] != ' ')
  }

  lemma PlainCanonical(s: string)
    requires Plain(s)
    ensures Canonical(s)
  {
  }

  lemma CleanCanonical(s: string)
    requires Canonical(s)
    ensures Clean(s) == s
  {
    ReplaceAbsent(s, NoBreakSpace, ' ');
    ReplaceAbsent(s, NoBreakHyphen, '-');
    StripUnpadded(s);
    LowerNoUpper(s);
  }

  /** An alias is its own alias. */
  lemma AliasIdempotent(c: string)
    ensures Alias(Alias(c)) == Alias(c)
  {
    NameMapCanonical();
    if c in NameMap {
      var a := NameMap[c];
      assert Alias(c) == a;
      assert a in NameMap ==> NameMap[a] == a;
    }
  }

  /** A canonical name normalises to its alias. */
  lemma NormalizeCanonical(s: string)
    ensures Canonical(s) ==> NormalizeTeam(Some(s)) == Alias(s)
  {
    if Canonical(s) {
      CleanCanonical(s);
    }
  }

  /** Normalising a normalised name changes nothing. */
  lemma NormalizeIdempotent(name: Option<string>)
    ensures NormalizeTeam(Some(NormalizeTeam(name))) == NormalizeTeam(name)
  {
    var r := NormalizeTeam(name);
    NormalizeCanonical(r);
    if name.Some? {
      AliasIdempotent(Clean(name.value));
    } else {
      assert "" !in NameMap;
    }
  }

  /** Cleaning ignores letter case. */
  lemma CleanLower(s: string)
    ensures Clean(Lower(s)) == Clean(s)
  {
    LowerReplace(s, NoBreakSpace, ' ');
    LowerReplace(Replace(s, NoBreakSpace, ' '), NoBreakHyphen, '-');
    LowerStrip(Substitute(s));
    LowerNoUpper(Lower(Strip(Substitute(s))));
  }

  /** Names that differ only in the case of their letters normalise alike. */
  lemma NormalizeCaseInsensitive(s: string, t: string)
    requires Lower(s) == Lower(t)
    ensures NormalizeTeam(Some(s)) == NormalizeTeam(Some(t))
  {
    CleanLower(s);
    CleanLower(t);
  }

  /** Whitespace around a name (including no-break spaces) does not change its normal form. */
  lemma NormalizePaddingInsensitive(p: string, s: string, q: string)
    requires AllSpace(p) && AllSpace(q)
    ensures NormalizeTeam(Some(p + s + q)) == NormalizeTeam(Some(s))
  {
    assert Substitute(p + s + q) == Substitute(p) + Substitute(s) + Substitute(q);
    StripPadded(Substitute(p), Substitute(s), Substitute(q));
  }

  /** "ajax" in either case takes the alias "afc ajax". */
  lemma AjaxAnyCase()
    ensures NormalizeTeam(Some("ajax")) == "afc ajax"
    ensures NormalizeTeam(Some("Ajax")) == "afc ajax"
  {
    var k := "ajax";
    AjaxPlain();
    PlainCanonical(k);
    NormalizeCanonical(k);
    assert Alias(k) == "afc ajax";
    LowerAjax();
    NormalizeCaseInsensitive("Ajax", k);
  }

  lemma LowerAjax()
    ensures Lower("Ajax") == "ajax"
  {
    var l := Lower("Ajax");
    assert l[0] == 'a' && l[1] == 'j' && l[2] == 'a' && l[3] == 'x';
  }

  lemma AjaxPlain()
    ensures Plain("ajax")
  {
  }

  /** The worked example: "Ajax " and "ajax" both become the alias "afc ajax". */
  lemma AjaxExample()
    ensures NormalizeTeam(Some("Ajax ")) == "afc ajax"
    ensures NormalizeTeam(Some("ajax")) == "afc ajax"
  {
    var name := "Ajax";
    var padded := name + " ";
    assert padded == "Ajax ";
    TrailingSpace(name);
    AjaxAnyCase();
  }

  lemma TrailingSpace(s: string)
    ensures NormalizeTeam(Some(s + " ")) == NormalizeTeam(Some(s))
  {
    var p: string, q := [], " ";
    var t := s + q;
    assert AllSpace(q) && AllSpace(p);
    assert p + s + q == t;
    NormalizePaddingInsensitive(p, s, q);
    assert NormalizeTeam(Some(t)) == NormalizeTeam(Some(s));
  }

  /** Two spellings of a name that differ only in no-break characters against their plain ones. */
  predicate SameSpelling(s: string, t: string) {
    |s| == |t| && forall i :: 0 <= i < |s| ==> SubstituteChar(s[i]) == SubstituteChar(t[i])
  }

  /** A no-break space or hyphen normalises like a plain space or hyphen in the same place. */
  lemma NormalizeSpelling(s: string, t: string)
    requires SameSpelling(s, t)
    ensures NormalizeTeam(Some(s)) == NormalizeTeam(Some(t))
  {
    assert Substitute(s) == Substitute(t);
  }

  /** The alias-table entry "union saint-gilloise" is reached from its U+2011 spelling. */
  lemma UnionSaintGilloise()
    ensures NormalizeTeam(Some("Union Saint\U{2011}Gilloise")) == "union saint-gilloise"
  {
    var fancy := "Union Saint\U{2011}Gilloise";
    var plain := "Union Saint-Gilloise";
    var key := "union saint-gilloise";
    assert SameSpelling(fancy, plain) by {
      forall i | 0 <= i < |fancy| ensures SubstituteChar(fancy[i]) == SubstituteChar(plain[i]) {
        if i != 11 {
          assert fancy[i] == plain[i];
        }
      }
    }
    NormalizeSpelling(fancy, plain);
    LowerUnion();
    NormalizeCaseInsensitive(plain, key);
    AliasesPlain();
    PlainCanonical(key);
    NormalizeCanonical(key);
  }

  lemma LowerUnion()
    ensures Lower("Union Saint-Gilloise") == "union saint-gilloise"
  {
    var l := Lower("Union Saint-Gilloise");
    assert l[0] == 'u' && l[6] == 's' && l[12] == 'g';
  }
}
