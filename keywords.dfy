/** Column-header detection for the registration export: a header matches
    a keyword set when one of its lower-cased, space-separated words is in
    the set, and the first matching header is selected. */
module Keywords {
  import opened Wrappers
  import opened Text

  const FirstnameKeywords: set<string> := {"etunimi", "firstname", "first", "given"}
  const SurnameKeywords: set<string> := {"sukunimi", "surname", "last", "family"}
  const GroupKeywords: set<string> :=
    {"p\U{F6}yt\U{E4}seuratoive", "p\U{F6}yt\U{E4}seuruetoive", "p\U{F6}yt\U{E4}seura",
     "group", "sit", "avec"}

  /** `any(p in keywords for p in words)` */
  function AnyIn(words: seq<string>, keywords: set<string>): (r: bool)
    ensures r <==> exists k :: 0 <= k < |words| && words[k] in keywords
  {
    if words == [] then false
    else words[0] in keywords || AnyIn(words[1..], keywords)
  }

  /** `_compare_keywords`: some word of the lower-cased header is a keyword. */
  function CompareKeywords(header: string, keywords: set<string>): (r: bool)
    ensures r <==> exists w :: w in SplitWhitespace(Lower(header)) && w in keywords
  {
    AnyIn(SplitWhitespace(Lower(header)), keywords)
  }

  /** `np.where(flags)[0][0]`: the index of the first `True`; `None` when
      there is none (NumPy then raises `IndexError`). */
  function FirstTrue(flags: seq<bool>): (r: Option<nat>)
    ensures r.Some? ==> r.value < |flags| && flags[r.value]
    ensures r.Some? ==> forall j :: 0 <= j < r.value ==> !flags[j]
    ensures r.None? <==> forall j :: 0 <= j < |flags| ==> !flags[j]
  {
    if flags == [] then None
    else if flags[0] then Some(0)
    else match FirstTrue(flags[1..])
      case None => None
      case Some(i) => Some(i + 1)
  }

  /** `[_compare_keywords(h, keywords) for h in headers]` */
  function Matches(headers: seq<string>, keywords: set<string>): (flags: seq<bool>)
    ensures |flags| == |headers|
    ensures forall j :: 0 <= j < |headers| ==> flags[j] == CompareKeywords(headers[j], keywords)
  {
    seq(|headers|, j requires 0 <= j < |headers| => CompareKeywords(headers[j], keywords))
  }

  /** `_select_keyword`: the first header, in list order, that matches;
      `None` stands for the `IndexError` raised when no header matches. */
  function SelectKeyword(headers: seq<string>, keywords: set<string>): (r: Option<string>)
    ensures r.None? <==> forall h :: h in headers ==> !CompareKeywords(h, keywords)
    ensures r.Some? ==> exists i :: 0 <= i < |headers| && headers[i] == r.value &&
                          CompareKeywords(headers[i], keywords) &&
                          forall j :: 0 <= j < i ==> !CompareKeywords(headers[j], keywords)
  {
    var flags := Matches(headers, keywords);
    match FirstTrue(flags)
    case None => None
    case Some(i) => Some(headers[i])
  }

  /** A header written with a capital and extra words is still recognised:
      "Sit with" selects the group column, and "Etunimi" does not. */
  lemma GroupHeaderExample()
    ensures SelectKeyword(["Etunimi", "Sit with"], GroupKeywords) == Some("Sit with")
  {
    NotGroupHeader();
    GroupHeader();
  }

  lemma NotGroupHeader()
    ensures !CompareKeywords("Etunimi", GroupKeywords)
  {
    LowerEtunimi();
    NoSpaceEtunimi();
    assert !AnyIn(["etunimi"], GroupKeywords) by { NotKeywordEtunimi(); }
  }

  lemma LowerEtunimi()
    ensures Lower("Etunimi") == "etunimi"
  {
    assert LowerChar('E') == 'e';
  }

  lemma NoSpaceEtunimi()
    ensures SplitWhitespace("etunimi") == ["etunimi"]
  {
    assert NoSpace("etunimi");
  }

  lemma NotKeywordEtunimi()
    ensures "etunimi" !in GroupKeywords
  {
  }

  lemma GroupHeader()
    ensures CompareKeywords("Sit with", GroupKeywords)
  {
    assert Lower("Sit with") == JoinSpaced(["sit", "with"]);
    SplitJoinRoundTrip(["sit", "with"]);
    assert AnyIn(["sit", "with"], GroupKeywords);
  }
}
