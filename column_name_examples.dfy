/**
 * Worked examples of ert-manifest's column-name policy, the cases its
 * `check_column_name` tests check. Proving that a name is NOT matched by any PHI pattern needs every
 * pattern of the list compared with the words the name can match, so those
 * comparisons are split into small lemmas, one per group of sub-lists.
 */
module ColumnNameExamples {
  import opened Strings
  import opened Types
  import opened ColumnNames

  /** Separator style and case do not matter: three spellings of one name normalise alike. */
  lemma PatientNameSpellings()
    ensures NormalizedName("PATIENT_NAME") == NormalizedName("patient-name") == NormalizedName("patient name") == "patient_name"
  {
    assert NormalizedName("PATIENT_NAME") == "patient_name";
    assert NormalizedName("patient-name") == "patient_name";
    assert NormalizedName("patient name") == "patient_name";
  }

  /** "patient_name" starts with the Phi word "patient" followed by '_'. */
  lemma PatientNameIsPhi()
    ensures CheckColumnName("PATIENT_NAME").classification == Phi
  {
    var n := NormalizedName("PATIENT_NAME");
    assert n == "patient_name";
    assert PHI_PATTERNS[1] == "patient";
    PrefixWordMatches("patient_name", "patient");
    assert AnyMatch(n, PHI_PATTERNS);
  }

  /** The three spellings therefore classify alike, all as Phi. */
  lemma PatientNameExamples()
    ensures CheckColumnName("patient-name") == CheckColumnName("patient name") == CheckColumnName("PATIENT_NAME")
    ensures CheckColumnName("patient-name").classification == Phi
  {
    PatientNameSpellings();
    PatientNameIsPhi();
    ClassifiedByNormalizedName("patient-name", "PATIENT_NAME");
    ClassifiedByNormalizedName("patient name", "PATIENT_NAME");
  }

  /** The abbreviation "subj" makes "subj_id" a Phi column. */
  lemma SubjIdExample()
    ensures CheckColumnName("subj_id").classification == Phi
  {
    var n := NormalizedName("subj_id");
    assert n == "subj_id";
    assert PHI_PATTERNS[101] == "subj";
    PrefixWordMatches("subj_id", "subj");
    assert AnyMatch(n, PHI_PATTERNS);
  }

  /** A '_' in `a_b`, where neither segment holds one, is the separator. */
  lemma UnderscoreBetween(a: string, b: string, k: int)
    requires '_' !in a && '_' !in b
    requires 0 <= k < |a + "_" + b| && (a + "_" + b)[k] == '_'
    ensures k == |a|
  {
    var n := a + "_" + b;
    assert forall j :: 0 <= j < |a| ==> n[j] == a[j];
    assert forall j :: 0 <= j < |b| ==> n[|a| + 1 + j] == b[j];
  }

  /** A non-empty pattern that is neither a prefix nor a suffix form is plain. */
  lemma NotEdgeIsPlain(p: string)
    requires p != [] && !EndsWith(p, "_") && !StartsWith(p, "_")
    ensures PlainPattern(p)
  {
    assert p[..1] == [p[0]];
    assert p[|p| - 1..] == [p[|p| - 1]];
  }

  /**
   * The patterns that can match a name made of two '_'-free segments `a_b`:
   * the empty pattern, either segment, the whole name, the prefix form
   * "a_" and the suffix form "_b".
   */
  lemma TwoSegmentMatches(a: string, b: string, p: string)
    requires '_' !in a && '_' !in b
    requires MatchesPattern(a + "_" + b, p)
    ensures p in {"", a, b, a + "_" + b, a + "_", "_" + b}
  {
    var n := a + "_" + b;
    if EndsWith(p, "_") {
      assert p[|p| - 1] == p[|p| - 1..][0] == '_';
      assert n[|p| - 1] == n[..|p|][|p| - 1];
      UnderscoreBetween(a, b, |p| - 1);
      assert n[..|a| + 1] == a + "_";
    } else if StartsWith(p, "_") {
      var s := |n| - |p|;
      assert p[0] == p[..1][0] == '_';
      assert n[s] == n[s..][0];
      UnderscoreBetween(a, b, s);
      assert n[|a|..] == "_" + b;
    } else if p != [] {
      NotEdgeIsPlain(p);
      var at := MatchIsDelimited(n, p);
      var e := at + |p|;
      if at > 0 {
        UnderscoreBetween(a, b, at - 1);
        if e < |n| {
          UnderscoreBetween(a, b, e);
        }
        assert p == n[at..e] == n[|a| + 1..] == b;
      } else if e < |n| {
        UnderscoreBetween(a, b, e);
        assert n[..|a|] == a;
      }
    }
  }

  /** The two edge-form abbreviations are the only patterns that are not plain. */
  predicate PlainOrAbbreviation(p: string) {
    PlainPattern(p) || p == "pt_" || p == "_pt"
  }

  /**
   * In a list of plain patterns and abbreviations, only a segment or the
   * whole name can match a two-segment name, provided its edge forms are
   * not the abbreviations.
   */
  lemma TwoSegmentListMatch(a: string, b: string, patterns: seq<string>, i: int)
    requires '_' !in a && '_' !in b && a != "pt" && b != "pt"
    requires forall p <- patterns :: PlainOrAbbreviation(p)
    requires 0 <= i < |patterns| && MatchesPattern(a + "_" + b, patterns[i])
    ensures patterns[i] in {a, b, a + "_" + b}
  {
    var p := patterns[i];
    TwoSegmentMatches(a, b, p);
    assert PlainOrAbbreviation(p);
  }

  /** Contrapositive of TwoSegmentListMatch: no pattern of the list matches `a_b`. */
  lemma TwoSegmentNoMatch(a: string, b: string, patterns: seq<string>)
    requires '_' !in a && '_' !in b && a != "pt" && b != "pt"
    requires forall p <- patterns :: PlainOrAbbreviation(p) && p != a && p != b && p != a + "_" + b
    ensures !AnyMatch(a + "_" + b, patterns)
  {
    forall i | 0 <= i < |patterns|
      ensures !MatchesPattern(a + "_" + b, patterns[i])
    {
      assert patterns[i] in patterns;
      if MatchesPattern(a + "_" + b, patterns[i]) {
        TwoSegmentListMatch(a, b, patterns, i);
      }
    }
  }

  /** The segments and whole names of the worked examples below. */
  const EXAMPLE_WORDS: set<string> := {
    "site", "code", "site_code", "record", "id", "record_id",
    "centre", "hospitalier", "centre_hospitalier",
    "treatment", "group", "treatment_group", "dose", "mg", "dose_mg"
  }

  /*
   * The PHI sub-lists, a few at a time: comparing every pattern with every
   * example word in one proof is more than the solver can do at once.
   */

  lemma PhiListsAvoidExamples1()
    ensures forall p <- PHI_NAMES_EN :: p !in EXAMPLE_WORDS
    ensures forall p <- PHI_NAMES_FR :: p !in EXAMPLE_WORDS
    ensures forall p <- PHI_NAMES_PT :: p !in EXAMPLE_WORDS
  {
  }

  lemma PhiListsAvoidExamples2()
    ensures forall p <- PHI_RECORD_NUMBERS :: p !in EXAMPLE_WORDS
    ensures forall p <- PHI_CANADIAN_HEALTH_IDS :: p !in EXAMPLE_WORDS
    ensures forall p <- PHI_QUEBEC_HEALTH_IDS :: p !in EXAMPLE_WORDS
  {
  }

  lemma PhiListsAvoidExamples3()
    ensures forall p <- PHI_BRAZILIAN_IDS :: p !in EXAMPLE_WORDS
    ensures forall p <- PHI_US_IDS :: p !in EXAMPLE_WORDS
    ensures forall p <- PHI_DATES_EN :: p !in EXAMPLE_WORDS
  {
  }

  lemma PhiListsAvoidExamples4()
    ensures forall p <- PHI_DATES_FR :: p !in EXAMPLE_WORDS
    ensures forall p <- PHI_DATES_PT :: p !in EXAMPLE_WORDS
    ensures forall p <- PHI_ADDRESS_EN :: p !in EXAMPLE_WORDS
    ensures forall p <- PHI_ADDRESS_FR :: p !in EXAMPLE_WORDS
  {
  }

  lemma PhiListsAvoidExamples5()
    ensures forall p <- PHI_ADDRESS_PT :: p !in EXAMPLE_WORDS
    ensures forall p <- PHI_CONTACT_EN :: p !in EXAMPLE_WORDS
    ensures forall p <- PHI_CONTACT_FR :: p !in EXAMPLE_WORDS
    ensures forall p <- PHI_CONTACT_PT :: p !in EXAMPLE_WORDS
  {
  }

  lemma PhiListsAvoidExamples6()
    ensures forall p <- PHI_FAMILY_CONTACTS :: p !in EXAMPLE_WORDS
    ensures forall p <- PHI_FAMILY_PT :: p !in EXAMPLE_WORDS
    ensures forall p <- PHI_PROVIDERS_EN :: p !in EXAMPLE_WORDS
  {
  }

  lemma PhiListsAvoidExamples7()
    ensures forall p <- PHI_PROVIDERS_FR :: p !in EXAMPLE_WORDS
    ensures forall p <- PHI_PROVIDERS_PT :: p !in EXAMPLE_WORDS
    ensures forall p <- PHI_ABBREVIATIONS :: p !in EXAMPLE_WORDS
  {
  }

  lemma PhiListsAvoidExamples8()
    ensures forall p <- PHI_HEALTH_PLAN_NUMBERS :: p !in EXAMPLE_WORDS
    ensures forall p <- PHI_ACCOUNT_NUMBERS :: p !in EXAMPLE_WORDS
    ensures forall p <- PHI_LICENSE_NUMBERS :: p !in EXAMPLE_WORDS
  {
  }

  lemma PhiListsAvoidExamples9()
    ensures forall p <- PHI_VEHICLE_IDS :: p !in EXAMPLE_WORDS
    ensures forall p <- PHI_DEVICE_IDS :: p !in EXAMPLE_WORDS
    ensures forall p <- PHI_WEB_URLS :: p !in EXAMPLE_WORDS
    ensures forall p <- PHI_IP_ADDRESSES :: p !in EXAMPLE_WORDS
  {
  }

  lemma PhiListsAvoidExamples10()
    ensures forall p <- PHI_BIOMETRICS :: p !in EXAMPLE_WORDS
    ensures forall p <- PHI_PHOTOGRAPHS :: p !in EXAMPLE_WORDS
  {
  }

  lemma PhiListsShaped1()
    ensures forall p <- PHI_NAMES_EN :: PlainOrAbbreviation(p)
    ensures forall p <- PHI_NAMES_FR :: PlainOrAbbreviation(p)
    ensures forall p <- PHI_NAMES_PT :: PlainOrAbbreviation(p)
    ensures forall p <- PHI_RECORD_NUMBERS :: PlainOrAbbreviation(p)
    ensures forall p <- PHI_CANADIAN_HEALTH_IDS :: PlainOrAbbreviation(p)
    ensures forall p <- PHI_QUEBEC_HEALTH_IDS :: PlainOrAbbreviation(p)
    ensures forall p <- PHI_BRAZILIAN_IDS :: PlainOrAbbreviation(p)
    ensures forall p <- PHI_US_IDS :: PlainOrAbbreviation(p)
    ensures forall p <- PHI_DATES_EN :: PlainOrAbbreviation(p)
    ensures forall p <- PHI_DATES_FR :: PlainOrAbbreviation(p)
    ensures forall p <- PHI_DATES_PT :: PlainOrAbbreviation(p)
  {
  }

  lemma PhiListsShaped2()
    ensures forall p <- PHI_ADDRESS_EN :: PlainOrAbbreviation(p)
    ensures forall p <- PHI_ADDRESS_FR :: PlainOrAbbreviation(p)
    ensures forall p <- PHI_ADDRESS_PT :: PlainOrAbbreviation(p)
    ensures forall p <- PHI_CONTACT_EN :: PlainOrAbbreviation(p)
    ensures forall p <- PHI_CONTACT_FR :: PlainOrAbbreviation(p)
    ensures forall p <- PHI_CONTACT_PT :: PlainOrAbbreviation(p)
    ensures forall p <- PHI_FAMILY_CONTACTS :: PlainOrAbbreviation(p)
    ensures forall p <- PHI_FAMILY_PT :: PlainOrAbbreviation(p)
    ensures forall p <- PHI_PROVIDERS_EN :: PlainOrAbbreviation(p)
    ensures forall p <- PHI_PROVIDERS_FR :: PlainOrAbbreviation(p)
    ensures forall p <- PHI_PROVIDERS_PT :: PlainOrAbbreviation(p)
    ensures forall p <- PHI_ABBREVIATIONS :: PlainOrAbbreviation(p)
    ensures forall p <- PHI_HEALTH_PLAN_NUMBERS :: PlainOrAbbreviation(p)
    ensures forall p <- PHI_ACCOUNT_NUMBERS :: PlainOrAbbreviation(p)
  {
  }

  lemma PhiListsShaped3()
    ensures forall p <- PHI_LICENSE_NUMBERS :: PlainOrAbbreviation(p)
    ensures forall p <- PHI_VEHICLE_IDS :: PlainOrAbbreviation(p)
    ensures forall p <- PHI_DEVICE_IDS :: PlainOrAbbreviation(p)
    ensures forall p <- PHI_WEB_URLS :: PlainOrAbbreviation(p)
    ensures forall p <- PHI_IP_ADDRESSES :: PlainOrAbbreviation(p)
    ensures forall p <- PHI_BIOMETRICS :: PlainOrAbbreviation(p)
    ensures forall p <- PHI_PHOTOGRAPHS :: PlainOrAbbreviation(p)
  {
  }

  /** Every PHI pattern comes from one of the category sub-lists `PHI_PATTERNS` is built from. */
  lemma PhiPatternSources(p: string)
    requires p in PHI_PATTERNS
    ensures p in PHI_NAMES_EN
      || p in PHI_NAMES_FR
      || p in PHI_NAMES_PT
      || p in PHI_RECORD_NUMBERS
      || p in PHI_CANADIAN_HEALTH_IDS
      || p in PHI_QUEBEC_HEALTH_IDS
      || p in PHI_BRAZILIAN_IDS
      || p in PHI_US_IDS
      || p in PHI_DATES_EN
      || p in PHI_DATES_FR
      || p in PHI_DATES_PT
      || p in PHI_ADDRESS_EN
      || p in PHI_ADDRESS_FR
      || p in PHI_ADDRESS_PT
      || p in PHI_CONTACT_EN
      || p in PHI_CONTACT_FR
      || p in PHI_CONTACT_PT
      || p in PHI_FAMILY_CONTACTS
      || p in PHI_FAMILY_PT
      || p in PHI_PROVIDERS_EN
      || p in PHI_PROVIDERS_FR
      || p in PHI_PROVIDERS_PT
      || p in PHI_ABBREVIATIONS
      || p in PHI_HEALTH_PLAN_NUMBERS
      || p in PHI_ACCOUNT_NUMBERS
      || p in PHI_LICENSE_NUMBERS
      || p in PHI_VEHICLE_IDS
      || p in PHI_DEVICE_IDS
      || p in PHI_WEB_URLS
      || p in PHI_IP_ADDRESSES
      || p in PHI_BIOMETRICS
      || p in PHI_PHOTOGRAPHS
  {
  }

  /** The PHI list holds no example word. */
  lemma PhiAvoidsExamples()
    ensures forall p <- PHI_PATTERNS :: p !in EXAMPLE_WORDS
  {
    forall p | p in PHI_PATTERNS
      ensures p !in EXAMPLE_WORDS
    {
      PhiPatternSources(p);
      if p in PHI_NAMES_EN || p in PHI_NAMES_FR || p in PHI_NAMES_PT {
        PhiListsAvoidExamples1();
      } else if p in PHI_RECORD_NUMBERS || p in PHI_CANADIAN_HEALTH_IDS || p in PHI_QUEBEC_HEALTH_IDS {
        PhiListsAvoidExamples2();
      } else if p in PHI_BRAZILIAN_IDS || p in PHI_US_IDS || p in PHI_DATES_EN {
        PhiListsAvoidExamples3();
      } else if p in PHI_DATES_FR || p in PHI_DATES_PT || p in PHI_ADDRESS_EN || p in PHI_ADDRESS_FR {
        PhiListsAvoidExamples4();
      } else if p in PHI_ADDRESS_PT || p in PHI_CONTACT_EN || p in PHI_CONTACT_FR || p in PHI_CONTACT_PT {
        PhiListsAvoidExamples5();
      } else if p in PHI_FAMILY_CONTACTS || p in PHI_FAMILY_PT || p in PHI_PROVIDERS_EN {
        PhiListsAvoidExamples6();
      } else if p in PHI_PROVIDERS_FR || p in PHI_PROVIDERS_PT || p in PHI_ABBREVIATIONS {
        PhiListsAvoidExamples7();
      } else if p in PHI_HEALTH_PLAN_NUMBERS || p in PHI_ACCOUNT_NUMBERS || p in PHI_LICENSE_NUMBERS {
        PhiListsAvoidExamples8();
      } else if p in PHI_VEHICLE_IDS || p in PHI_DEVICE_IDS || p in PHI_WEB_URLS || p in PHI_IP_ADDRESSES {
        PhiListsAvoidExamples9();
      } else {
        PhiListsAvoidExamples10();
      }
    }
  }

  /** The PHI list holds only plain patterns and the two abbreviations. */
  lemma PhiPatternsShaped()
    ensures forall p <- PHI_PATTERNS :: PlainOrAbbreviation(p)
  {
    forall p | p in PHI_PATTERNS
      ensures PlainOrAbbreviation(p)
    {
      PhiPatternSources(p);
      if p in PHI_NAMES_EN || p in PHI_NAMES_FR || p in PHI_NAMES_PT || p in PHI_RECORD_NUMBERS || p in PHI_CANADIAN_HEALTH_IDS || p in PHI_QUEBEC_HEALTH_IDS || p in PHI_BRAZILIAN_IDS || p in PHI_US_IDS || p in PHI_DATES_EN || p in PHI_DATES_FR || p in PHI_DATES_PT {
        PhiListsShaped1();
      } else if p in PHI_ADDRESS_EN || p in PHI_ADDRESS_FR || p in PHI_ADDRESS_PT || p in PHI_CONTACT_EN || p in PHI_CONTACT_FR || p in PHI_CONTACT_PT || p in PHI_FAMILY_CONTACTS || p in PHI_FAMILY_PT || p in PHI_PROVIDERS_EN || p in PHI_PROVIDERS_FR || p in PHI_PROVIDERS_PT || p in PHI_ABBREVIATIONS || p in PHI_HEALTH_PLAN_NUMBERS || p in PHI_ACCOUNT_NUMBERS {
        PhiListsShaped2();
      } else {
        PhiListsShaped3();
      }
    }
  }

  /** A name already in lower case with no separator other than '_' is its own normalised form. */
  lemma NormalizedIsSelf(name: string)
    requires forall c <- name :: IsAsciiLower(c) || c == '_'
    ensures NormalizedName(name) == name
  {
    forall j | 0 <= j < |name|
      ensures !IsAsciiUpper(name[j]) && !IsSeparator(name[j])
    {
      assert name[j] in name;
    }
  }

  /** Only a word of `words` can match `a_b`, so a list that avoids them has no match. */
  lemma AvoidingListNoMatch(a: string, b: string, patterns: seq<string>, words: set<string>)
    requires '_' !in a && '_' !in b && a != "pt" && b != "pt"
    requires a in words && b in words && a + "_" + b in words
    requires forall p <- patterns :: p !in words && PlainOrAbbreviation(p)
    ensures !AnyMatch(a + "_" + b, patterns)
  {
    TwoSegmentNoMatch(a, b, patterns);
  }

  /** No PHI pattern matches `name` = `a_b` when its segments and the whole are example words. */
  lemma ExampleNotPhi(name: string, a: string, b: string)
    requires name == a + "_" + b
    requires '_' !in a && '_' !in b && a != "pt" && b != "pt"
    requires a in EXAMPLE_WORDS && b in EXAMPLE_WORDS && name in EXAMPLE_WORDS
    ensures !AnyMatch(name, PHI_PATTERNS)
  {
    PhiAvoidsExamples();
    PhiPatternsShaped();
    AvoidingListNoMatch(a, b, PHI_PATTERNS, EXAMPLE_WORDS);
  }

  lemma SiteListsPlain()
    ensures forall p <- PHI_RECODE :: PlainOrAbbreviation(p)
    ensures forall p <- PHI_WARN_ONLY :: PlainOrAbbreviation(p)
  {
  }

  /** With no PHI match, the first matching site pattern decides the result. */
  lemma ClassifiedRecode(n: string, phi: seq<string>, recode: seq<string>, warn: seq<string>, i: int)
    requires !AnyMatch(n, phi)
    requires 0 <= i < |recode| && MatchesPattern(n, recode[i]) && !AnyMatch(n, recode[..i])
    ensures Classify(n, phi, recode, warn) == RecodeResult(recode[i])
  {
    assert forall j :: 0 <= j < i ==> recode[..i][j] == recode[j];
    assert FirstMatchAt(n, recode, i);
  }

  /** With no PHI or site match, the first matching warn-only pattern decides the result. */
  lemma ClassifiedWarning(n: string, phi: seq<string>, recode: seq<string>, warn: seq<string>, i: int)
    requires !AnyMatch(n, phi) && !AnyMatch(n, recode)
    requires 0 <= i < |warn| && MatchesPattern(n, warn[i]) && !AnyMatch(n, warn[..i])
    ensures Classify(n, phi, recode, warn) == WarningResult(warn[i])
  {
    assert forall j :: 0 <= j < i ==> warn[..i][j] == warn[j];
    assert FirstMatchAt(n, warn, i);
  }

  /** "site_code" is Recode, on the first site pattern "site". */
  lemma SiteCodeExample()
    ensures CheckColumnName("site_code") == RecodeResult("site")
  {
    NormalizedIsSelf("site_code");
    ExampleNotPhi("site_code", "site", "code");
    assert PHI_RECODE[0] == "site";
    PrefixWordMatches("site_code", "site");
    ClassifiedRecode("site_code", PHI_PATTERNS, PHI_RECODE, PHI_WARN_ONLY, 0);
  }

  /** None of the site patterns before "centre" matches "centre_hospitalier". */
  lemma CentreFirstSite()
    ensures !AnyMatch("centre_hospitalier", PHI_RECODE[..8])
  {
    SiteListsPlain();
    assert "centre_hospitalier" == "centre" + "_" + "hospitalier";
    TwoSegmentNoMatch("centre", "hospitalier", PHI_RECODE[..8]);
  }

  /** "centre_hospitalier" is Recode, on "centre": "hospitalier" is not the word "hospital". */
  lemma CentreHospitalierExample()
    ensures CheckColumnName("centre_hospitalier") == RecodeResult("centre")
  {
    NormalizedIsSelf("centre_hospitalier");
    ExampleNotPhi("centre_hospitalier", "centre", "hospitalier");
    assert PHI_RECODE[8] == "centre";
    PrefixWordMatches("centre_hospitalier", "centre");
    CentreFirstSite();
    ClassifiedRecode("centre_hospitalier", PHI_PATTERNS, PHI_RECODE, PHI_WARN_ONLY, 8);
  }

  /** "record_id" is only a Warning, on "id": no PHI or site pattern matches it. */
  lemma RecordIdExample()
    ensures CheckColumnName("record_id") == WarningResult("id")
  {
    NormalizedIsSelf("record_id");
    ExampleNotPhi("record_id", "record", "id");
    SiteListsPlain();
    TwoSegmentNoMatch("record", "id", PHI_RECODE);
    assert PHI_WARN_ONLY[0] == "id";
    SegmentPattern("record_id", "id");
    ClassifiedWarning("record_id", PHI_PATTERNS, PHI_RECODE, PHI_WARN_ONLY, 0);
  }

  /** "treatment_group" matches no pattern of any list, so it is Safe. */
  lemma TreatmentGroupExample()
    ensures CheckColumnName("treatment_group") == SafeResult()
  {
    NormalizedIsSelf("treatment_group");
    ExampleNotPhi("treatment_group", "treatment", "group");
    SiteListsPlain();
    TwoSegmentNoMatch("treatment", "group", PHI_RECODE);
    TwoSegmentNoMatch("treatment", "group", PHI_WARN_ONLY);
  }

  /** "dose_mg" matches no pattern of any list, so it is Safe. */
  lemma DoseMgExample()
    ensures CheckColumnName("dose_mg") == SafeResult()
  {
    NormalizedIsSelf("dose_mg");
    ExampleNotPhi("dose_mg", "dose", "mg");
    SiteListsPlain();
    TwoSegmentNoMatch("dose", "mg", PHI_RECODE);
    TwoSegmentNoMatch("dose", "mg", PHI_WARN_ONLY);
  }
}
