/** The search filter that keeps volunteers holding a medical qualification
    whose name contains a keyword, ignoring letter case. */
module MedicalQualification {
  import opened Common
  import opened Persons
  import opened Text

  /** The filter; `keyword` is stored lower-cased by `NewKeywordPredicate`. */
  datatype KeywordPredicate = KeywordPredicate(keyword: string)

  /** The constructor: a null keyword is rejected, any other is stored
      lower-cased. */
  function NewKeywordPredicate(keyword: Option<string>): (r: Result<KeywordPredicate>)
    ensures r.Err? <==> keyword.None?
    ensures r.Err? ==> r.error == NullPointer
    ensures r.Ok? ==>
      && EqualIgnoringCase(r.value.keyword, keyword.value)
      && forall i :: 0 <= i < |r.value.keyword| ==> !IsUpperChar(r.value.keyword[i])
  {
    match keyword
    case None => Err(NullPointer)
    case Some(k) => Ok(KeywordPredicate(Lower(k)))
  }

  /** `test`: some medical tag of the volunteer, lower-cased, contains the
      stored keyword. */
  function Test(p: KeywordPredicate, v: Volunteer): (r: bool)
    ensures r <==> exists t :: t in v.medicalTags && IsSubstring(p.keyword, Lower(t.tagName))
  {
    exists t :: t in v.medicalTags && Contains(Lower(t.tagName), p.keyword)
  }

  /** A volunteer without medical tags never matches. */
  lemma NoMedicalTagsNeverMatch(p: KeywordPredicate, v: Volunteer)
    requires v.medicalTags == {}
    ensures !Test(p, v)
  {
  }

  /** The empty keyword matches exactly the volunteers with some medical tag. */
  lemma EmptyKeywordMatchesTagged(v: Volunteer)
    ensures Test(NewKeywordPredicate(Some("")).value, v) <==> v.medicalTags != {}
  {
  }

  /** Matching is monotone: a volunteer whose medical tags include another's
      matches whenever the other does. */
  lemma TestMonotone(p: KeywordPredicate, v: Volunteer, w: Volunteer)
    requires v.medicalTags <= w.medicalTags
    ensures Test(p, v) ==> Test(p, w)
  {
  }

  /** In particular, adding a medical tag never turns a match into a non-match. */
  lemma AddingTagKeepsMatch(p: KeywordPredicate, v: Volunteer, t: MedicalTag)
    ensures Test(p, v) ==> Test(p, v.(medicalTags := v.medicalTags + {t}))
  {
  }

  /** `equals`: the same predicate class holding the same stored keyword. */
  function Equals(p: KeywordPredicate, other: Object<KeywordPredicate>): (r: bool)
    ensures r <==> other == Instance(p)
  {
    other.Instance? && p.keyword == other.value.keyword
  }

  /** `hashCode`: `Objects.hash(keyword)`, that is `31 * 1 + keyword.hashCode()`
      in 32-bit arithmetic. */
  function HashCode(p: KeywordPredicate): (h: int)
    ensures -TwoTo31 <= h < TwoTo31
    ensures (31 + StringHashCode(p.keyword) - h) % TwoTo32 == 0
  {
    ToInt32((31 + HashBits(p.keyword)) % TwoTo32)
  }

  /** Equal predicates have equal hash codes. */
  lemma EqualsImpliesEqualHashCode(p: KeywordPredicate, q: KeywordPredicate)
    requires Equals(p, Instance(q))
    ensures HashCode(p) == HashCode(q)
  {
  }

  /** Predicates built from two keywords are equal exactly when the keywords
      differ only in letter case; such predicates then accept the same
      volunteers and have the same hash code. */
  lemma CaseVariantKeywordsAgree(a: string, b: string)
    ensures
      var pa := NewKeywordPredicate(Some(a)).value;
      var pb := NewKeywordPredicate(Some(b)).value;
      && (Equals(pa, Instance(pb)) <==> EqualIgnoringCase(a, b))
      && (EqualIgnoringCase(a, b) ==>
            HashCode(pa) == HashCode(pb) && forall v :: Test(pa, v) == Test(pb, v))
  {
  }
}
