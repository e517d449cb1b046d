/**
 Choosing the previous release among the tags of the mapping table.
 */
module ReleaseSelection {
  import opened Wrappers
  import opened Versions
  import opened StringOrder

  type Candidate = (Key, string)

  const BASELINE_STATUSES := {"published", "historical"}
  const DOCUMENT_ROLLBACK_STATUSES := {"published"}

  /** Python's order on pairs of a version key and a tag. */
  predicate Before(a: Candidate, b: Candidate) {
    KeyLess(a.0, b.0) || (a.0 == b.0 && Less(a.1, b.1))
  }

  predicate Eligible(tag: string, statuses: map<string, string>, target: Key, eligible: set<string>) {
    && VersionKey(tag).Some? && KeyLess(VersionKey(tag).value, target)
    && tag in statuses && statuses[tag] in eligible
  }

  function Candidates(tags: seq<string>, statuses: map<string, string>, target: Key, eligible: set<string>)
    : seq<Candidate>
  {
    if tags == [] then [] else
    var before, tag := Candidates(tags[..|tags| - 1], statuses, target, eligible), tags[|tags| - 1];
    if Eligible(tag, statuses, target, eligible) then before + [(VersionKey(tag).value, tag)] else before
  }

  function Maximum(cs: seq<Candidate>): (m: Candidate)
    requires cs != []
    ensures m in cs
  {
    if |cs| == 1 then cs[0] else
    var m := Maximum(cs[..|cs| - 1]);
    if Before(m, cs[|cs| - 1]) then cs[|cs| - 1] else m
  }

  /** What `select_previous_release_tag` computes. */
  function Selected(tags: seq<string>, statuses: map<string, string>, target: string, eligible: set<string>)
    : Option<string>
  {
    match VersionKey(target)
    case None => None
    case Some(key) =>
      var cs := Candidates(tags, statuses, key, eligible);
      if cs == [] then None else Some(Maximum(cs).1)
  }

  method SelectPreviousReleaseTag(tags: seq<string>, statuses: map<string, string>, target: string, eligible: set<string>)
    returns (r: Option<string>)
    ensures r == Selected(tags, statuses, target, eligible)
  {
    hide VersionKey, KeyLess, Less;
    var targetKey := VersionKey(target);
    if targetKey.None? {
      return None;
    }
    var candidates: seq<Candidate> := [];
    for i := 0 to |tags|
      invariant candidates == Candidates(tags[..i], statuses, targetKey.value, eligible)
    {
      assert tags[..i + 1][..i] == tags[..i];
      var key := VersionKey(tags[i]);
      if key.Some? && KeyLess(key.value, targetKey.value) && tags[i] in statuses && statuses[tags[i]] in eligible {
        candidates := candidates + [(key.value, tags[i])];
      }
    }
    assert tags[..|tags|] == tags;
    if candidates == [] {
      return None;
    }
    var best := candidates[0];
    for i := 1 to |candidates|
      invariant best == Maximum(candidates[..i])
    {
      assert candidates[..i + 1][..i] == candidates[..i];
      if Before(best, candidates[i]) {
        best := candidates[i];
      }
    }
    assert candidates[..|candidates|] == candidates;
    r := Some(best.1);
  }

  // ---------------------------------------------------------------- what is selected

  lemma {:induction false} CandidatesAreEligible(tags: seq<string>, statuses: map<string, string>, target: Key, eligible: set<string>)
    ensures var cs := Candidates(tags, statuses, target, eligible);
            && (forall c <- cs :: c.1 in tags && Eligible(c.1, statuses, target, eligible) && VersionKey(c.1) == Some(c.0))
            && (forall tag <- tags :: Eligible(tag, statuses, target, eligible) ==> (VersionKey(tag).value, tag) in cs)
  {
    hide VersionKey, KeyLess;
    if tags != [] {
      CandidatesAreEligible(tags[..|tags| - 1], statuses, target, eligible);
      assert tags == tags[..|tags| - 1] + [tags[|tags| - 1]];
    }
  }

  lemma BeforeIsTotal(a: Candidate, b: Candidate)
    ensures Before(a, b) || Before(b, a) || a == b
    ensures !(Before(a, b) && Before(b, a)) && !Before(a, a)
  {
    LessTrichotomy(a.1, b.1);
    LessTrichotomy(a.1, a.1);
  }

  lemma BeforeTransitive(a: Candidate, b: Candidate, c: Candidate)
    requires Before(a, b) && Before(b, c)
    ensures Before(a, c)
  {
    if Less(a.1, b.1) && Less(b.1, c.1) {
      LessTransitive(a.1, b.1, c.1);
    }
  }

  lemma {:induction false} MaximumIsLast(cs: seq<Candidate>)
    requires cs != []
    ensures forall c <- cs :: c == Maximum(cs) || Before(c, Maximum(cs))
  {
    if |cs| > 1 {
      var init, last := cs[..|cs| - 1], cs[|cs| - 1];
      var m := Maximum(init);
      MaximumIsLast(init);
      BeforeIsTotal(m, last);
      forall c <- cs ensures c == Maximum(cs) || Before(c, Maximum(cs)) {
        assert cs == init + [last];
        if c in init && c != m && Before(m, last) {
          BeforeTransitive(c, m, last);
        }
      }
    }
  }

  /** `tag` is the greatest eligible tag below the target. */
  ghost predicate IsPrevious(tag: string, tags: set<string>, statuses: map<string, string>, target: Key, eligible: set<string>) {
    && tag in tags && Eligible(tag, statuses, target, eligible)
    && forall t <- tags :: Eligible(t, statuses, target, eligible) && t != tag ==>
         Before((VersionKey(t).value, t), (VersionKey(tag).value, tag))
  }

  function TagSet(tags: seq<string>): set<string> {
    set tag | tag in tags
  }

  /** A tag is selected exactly when it is the greatest eligible one below the target; none is
      selected exactly when there is none. */
  lemma SelectedIsPrevious(tags: seq<string>, statuses: map<string, string>, target: string, eligible: set<string>)
    requires VersionKey(target).Some?
    ensures forall tag :: Selected(tags, statuses, target, eligible) == Some(tag) <==>
                          IsPrevious(tag, TagSet(tags), statuses, VersionKey(target).value, eligible)
    ensures Selected(tags, statuses, target, eligible) == None <==>
            forall tag <- tags :: !Eligible(tag, statuses, VersionKey(target).value, eligible)
  {
    var key := VersionKey(target).value;
    var cs := Candidates(tags, statuses, key, eligible);
    hide VersionKey, KeyLess, Less, Candidates, Before;
    CandidatesAreEligible(tags, statuses, key, eligible);
    if cs != [] {
      MaximumIsLast(cs);
      var m := Maximum(cs);
      assert IsPrevious(m.1, TagSet(tags), statuses, key, eligible);
      forall tag | IsPrevious(tag, TagSet(tags), statuses, key, eligible) ensures tag == m.1 {
        if tag != m.1 {
          BeforeIsTotal(m, (VersionKey(tag).value, tag));
        }
      }
    }
  }

  /** The order and the repetition of the tags do not matter. */
  lemma SelectionIgnoresOrder(a: seq<string>, b: seq<string>, statuses: map<string, string>, target: string, eligible: set<string>)
    requires TagSet(a) == TagSet(b)
    ensures Selected(a, statuses, target, eligible) == Selected(b, statuses, target, eligible)
  {
    if VersionKey(target).Some? {
      SelectedIsPrevious(a, statuses, target, eligible);
      SelectedIsPrevious(b, statuses, target, eligible);
      var sa, sb := Selected(a, statuses, target, eligible), Selected(b, statuses, target, eligible);
      assert forall tag :: sa == Some(tag) <==> sb == Some(tag);
      assert sa.Some? ==> sb == Some(sa.value);
      assert sb.Some? ==> sa == Some(sb.value);
    }
  }

  /** Making one more row eligible never lowers the selected release. */
  lemma SelectionIsMonotone(tags: seq<string>, statuses: map<string, string>, tag: string, status: string,
                            target: string, eligible: set<string>)
    requires status in eligible && Selected(tags, statuses, target, eligible).Some?
    ensures var old' := Selected(tags, statuses, target, eligible).value;
            var new' := Selected(tags, statuses[tag := status], target, eligible);
            && new'.Some? && VersionKey(old').Some? && VersionKey(new'.value).Some?
            && !KeyLess(VersionKey(new'.value).value, VersionKey(old').value)
            && (new'.value == old' || new'.value == tag)
  {
    var key, after := VersionKey(target).value, statuses[tag := status];
    SelectedIsPrevious(tags, statuses, target, eligible);
    SelectedIsPrevious(tags, after, target, eligible);
    hide Candidates, Maximum, VersionKey, KeyLess;
    var before := Selected(tags, statuses, target, eligible).value;
    assert IsPrevious(before, TagSet(tags), statuses, key, eligible);
    assert before in tags && Eligible(before, after, key, eligible);
    var now := Selected(tags, after, target, eligible).value;
    assert IsPrevious(now, TagSet(tags), after, key, eligible);
    if now != tag && now != before {
      assert Eligible(now, statuses, key, eligible);
      BeforeIsTotal((VersionKey(before).value, before), (VersionKey(now).value, now));
    }
  }

  /** With more eligible statuses, and any tags that include the one selected before, the selected
      release does not get lower. */
  lemma MoreStatusesSelectNoLower(tags: seq<string>, others: seq<string>, statuses: map<string, string>, target: string,
                                  fewer: set<string>, more: set<string>)
    requires fewer <= more && Selected(tags, statuses, target, fewer).Some?
    requires Selected(tags, statuses, target, fewer).value in others
    ensures var low, high := Selected(tags, statuses, target, fewer).value, Selected(others, statuses, target, more);
            && high.Some? && VersionKey(low).Some? && VersionKey(high.value).Some?
            && !KeyLess(VersionKey(high.value).value, VersionKey(low).value)
  {
    var key := VersionKey(target).value;
    SelectedIsPrevious(tags, statuses, target, fewer);
    SelectedIsPrevious(others, statuses, target, more);
    hide Candidates, Maximum, VersionKey, KeyLess;
    var low := Selected(tags, statuses, target, fewer).value;
    assert IsPrevious(low, TagSet(tags), statuses, key, fewer);
    assert low in others && Eligible(low, statuses, key, more);
    var high := Selected(others, statuses, target, more).value;
    assert IsPrevious(high, TagSet(others), statuses, key, more);
    if high != low {
      BeforeIsTotal((VersionKey(low).value, low), (VersionKey(high).value, high));
    }
  }

  /** The release that migrations are compared with is never below the one the documents roll back to,
      as long as that one is tagged. */
  lemma MigrationBaseIsNotBelowRollback(rows: seq<string>, gitTags: seq<string>, statuses: map<string, string>, target: string)
    requires Selected(rows, statuses, target, {"published"}).Some?
    requires Selected(rows, statuses, target, {"published"}).value in gitTags
    ensures var rollback, base := Selected(rows, statuses, target, {"published"}).value,
                                  Selected(gitTags, statuses, target, BASELINE_STATUSES);
            && base.Some? && VersionKey(rollback).Some? && VersionKey(base.value).Some?
            && !KeyLess(VersionKey(base.value).value, VersionKey(rollback).value)
  {
    hide Selected, VersionKey, KeyLess;
    MoreStatusesSelectNoLower(rows, gitTags, statuses, target, DOCUMENT_ROLLBACK_STATUSES, BASELINE_STATUSES);
  }
}
