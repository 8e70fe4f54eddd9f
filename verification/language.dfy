/**
 * The closed table of user languages and the `FromStr` parser that resolves a
 * short code against it.  The iteration order is the declaration order, which
 * is the order the derived `EnumIter` yields.
 */
module Languages {
  import opened AppErrors

  datatype Language =
    | English | Chinese | Spanish | French | German
    | Japanese | Portuguese | Russian | Arabic | Korean

  /** The `lang` property attached to every variant: two lower-case ASCII letters. */
  function Code(l: Language): (r: string)
    ensures |r| == 2
    ensures 'a' <= r[0] <= 'z' && 'a' <= r[1] <= 'z'
  {
    match l
    case English => "en"
    case Chinese => "zh"
    case Spanish => "es"
    case French => "fr"
    case German => "de"
    case Japanese => "ja"
    case Portuguese => "pt"
    case Russian => "ru"
    case Arabic => "ar"
    case Korean => "ko"
  }

  /** `Language::iter()`: every variant, in declaration order, each exactly once. */
  function AllLanguages(): (r: seq<Language>)
    ensures |r| == 10
    ensures forall l: Language :: l in r
    ensures forall i, j :: 0 <= i < j < |r| ==> r[i] != r[j]
  {
    var r := [English, Chinese, Spanish, French, German, Japanese, Portuguese, Russian, Arabic, Korean];
    assert forall l: Language :: l in r by {
      forall l: Language ensures l in r {
        assert l.English? || l.Chinese? || l.Spanish? || l.French? || l.German? ||
               l.Japanese? || l.Portuguese? || l.Russian? || l.Arabic? || l.Korean?;
      }
    }
    r
  }

  /** No two variants share a code, so the lookup is unambiguous. */
  lemma CodesDistinct(a: Language, b: Language)
    requires Code(a) == Code(b)
    ensures a == b
  {
  }

  /** `Iterator::find` over `ls`: the first language whose code is `s`. */
  function Find(ls: seq<Language>, s: string): (r: Option<Language>)
    ensures r.Some? ==> r.value in ls && Code(r.value) == s
    ensures r.None? <==> forall i :: 0 <= i < |ls| ==> Code(ls[i]) != s
    ensures r.Some? ==> exists k :: 0 <= k < |ls| && ls[k] == r.value &&
                                    forall j :: 0 <= j < k ==> Code(ls[j]) != s
  {
    if ls == [] then None
    else if Code(ls[0]) == s then Some(ls[0])
    else
      var r := Find(ls[1..], s);
      assert r.Some? ==> exists k :: 0 <= k < |ls[1..]| && ls[1..][k] == r.value &&
                                    forall j :: 0 <= j < k ==> Code(ls[1..][j]) != s;
      assert forall i :: 1 <= i < |ls| ==> ls[i] == ls[1..][i - 1];
      r
  }

  /** `Language::from_str`: the variant whose code is `s`, or `LanguageNotFound`. */
  function FromStr(s: string): (r: Result<Language>)
    ensures r.Ok? ==> Code(r.value) == s
    ensures r.Err? ==> r.error == LanguageNotFound
  {
    match Find(AllLanguages(), s)
    case Some(l) => Ok(l)
    case None => Err(LanguageNotFound)
  }

  /** Parsing the code of a variant yields that variant. */
  lemma ParseCode(l: Language)
    ensures FromStr(Code(l)) == Ok(l)
  {
    var r := FromStr(Code(l));
    assert r.Ok? by {
      var all := AllLanguages();
      assert l in all;
      var i :| 0 <= i < |all| && all[i] == l;
      assert Code(all[i]) == Code(l);
    }
    CodesDistinct(r.value, l);
  }

  /** Parsing fails exactly on the strings that are no variant's code; there is no fallback. */
  lemma ParseUnknown(s: string)
    ensures FromStr(s).Err? <==> forall l: Language :: Code(l) != s
  {
    if FromStr(s).Err? {
      forall l: Language ensures Code(l) != s {
        assert l in AllLanguages();
      }
    }
  }

  /** "en" is English (as in `main`) and "xx" is not found. */
  lemma ParseExamples()
    ensures FromStr("en") == Ok(English)
    ensures FromStr("xx") == Err(LanguageNotFound)
  {
    ParseCode(English);
    ParseUnknown("xx");
  }
}
