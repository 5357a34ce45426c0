/** Applications by domain: the longest suffix of whole labels decides, with an early exit on unknown last labels. */
module Domains {
  import opened Prelude

  type AppId = nat

  const ND_APP_UNKNOWN: AppId := 0

  /** The part of `name` from `k` on consists of whole labels, is not empty and is a known domain. */
  predicate Match(domains: map<string, AppId>, name: string, k: nat) {
    k < |name| && (k == 0 || name[k - 1] == '.') && name[k..] in domains
  }

  ghost predicate NoMatch(domains: map<string, AppId>, name: string) {
    forall k: nat :: !Match(domains, name, k)
  }

  ghost predicate LongestMatch(domains: map<string, AppId>, name: string, k: nat) {
    Match(domains, name, k) && forall j: nat :: j < k ==> !Match(domains, name, j)
  }

  /** Every known domain of a single label is in the index of last labels. */
  ghost predicate Indexed(domains: map<string, AppId>, tlds: set<string>) {
    forall d :: d in domains && '.' !in d ==> d in tlds
  }

  /** The strings to search: what the transforms make of the name, or else the name. */
  function Search(name: string, transformed: seq<string>): seq<string> {
    if name == [] then []
    else
      var results := NonEmpty(transformed);
      if results == [] then [name] else results
  }

  function NonEmpty(names: seq<string>): (r: seq<string>)
    ensures forall i :: 0 <= i < |r| ==> r[i] != [] && r[i] in names
  {
    if names == [] then []
    else (if names[0] == [] then [] else [names[0]]) + NonEmpty(names[1..])
  }

  /** String `i` is the first with a match, its longest match starts at `k`. */
  ghost predicate Decides(domains: map<string, AppId>, search: seq<string>, i: nat, k: nat) {
    && i < |search| && LongestMatch(domains, search[i], k)
    && forall j :: 0 <= j < i ==> NoMatch(domains, search[j])
  }

  /** An id that the search strings lead to: the longest match of the first string that has one. */
  ghost predicate Answers(domains: map<string, AppId>, search: seq<string>, id: AppId) {
    if forall i :: 0 <= i < |search| ==> NoMatch(domains, search[i]) then id == ND_APP_UNKNOWN
    else exists i: nat, k: nat :: Decides(domains, search, i, k) && id == domains[search[i][k..]]
  }

  /** There is only one. */
  lemma AnswerUnique(domains: map<string, AppId>, search: seq<string>, id: AppId, id': AppId)
    requires Answers(domains, search, id) && Answers(domains, search, id')
    ensures id == id'
  {
    if !(forall i :: 0 <= i < |search| ==> NoMatch(domains, search[i])) {
      var i: nat, k: nat :| Decides(domains, search, i, k) && id == domains[search[i][k..]];
      var i': nat, k': nat :| Decides(domains, search, i', k') && id' == domains[search[i'][k'..]];
      DecidesOnce(domains, search, i, k, i', k');
      DecidesOnce(domains, search, i', k', i, k);
    }
  }

  lemma DecidesOnce(domains: map<string, AppId>, search: seq<string>, i: nat, k: nat, i': nat, k': nat)
    requires Decides(domains, search, i, k) && Decides(domains, search, i', k')
    ensures i <= i' && (i == i' ==> k <= k')
  {
    assert Match(domains, search[i'], k');
  }

  /**
   * The answer on the name and the transforms themselves: none for an empty name; that of the name if no transform
   * yields anything; else that of the first transform, of those that yield something, with a match.
   */
  ghost predicate AnswersFor(domains: map<string, AppId>, name: string, transformed: seq<string>, id: AppId) {
    if name == "" then id == ND_APP_UNKNOWN
    else if forall i :: 0 <= i < |transformed| ==> transformed[i] == "" then
      if NoMatch(domains, name) then id == ND_APP_UNKNOWN
      else exists k: nat :: LongestMatch(domains, name, k) && id == domains[name[k..]]
    else if NoneMatches(domains, transformed) then id == ND_APP_UNKNOWN
    else exists i: nat, k: nat :: FirstTransform(domains, transformed, i, k) && id == domains[transformed[i][k..]]
  }

  ghost predicate NoneMatches(domains: map<string, AppId>, transformed: seq<string>) {
    forall i :: 0 <= i < |transformed| && transformed[i] != "" ==> NoMatch(domains, transformed[i])
  }

  ghost predicate FirstTransform(domains: map<string, AppId>, transformed: seq<string>, i: nat, k: nat) {
    && i < |transformed| && transformed[i] != "" && LongestMatch(domains, transformed[i], k)
    && forall j :: 0 <= j < i && transformed[j] != "" ==> NoMatch(domains, transformed[j])
  }

  /** Where string `j` of those that are not empty comes from. */
  function Origin(names: seq<string>, j: nat): (i: nat)
    requires j < |NonEmpty(names)|
    ensures i < |names| && names[i] == NonEmpty(names)[j]
  {
    if names[0] == [] then 1 + Origin(names[1..], j)
    else if j == 0 then 0
    else 1 + Origin(names[1..], j - 1)
  }

  /** Filtering keeps everything that is not empty, in order. */
  lemma {:induction false} FilterKeeps(names: seq<string>, i: nat) returns (j: nat)
    requires i < |names| && names[i] != []
    ensures j < |NonEmpty(names)| && NonEmpty(names)[j] == names[i] && Origin(names, j) == i
  {
    if i == 0 {
      j := 0;
    } else {
      j := FilterKeeps(names[1..], i - 1);
      j := if names[0] == [] then j else j + 1;
    }
  }

  lemma {:induction false} OriginOrder(names: seq<string>, j: nat, j': nat)
    requires j < j' < |NonEmpty(names)|
    ensures Origin(names, j) < Origin(names, j')
  {
    var skipped := if names[0] == [] then 0 else 1;
    assert |NonEmpty(names)| == skipped + |NonEmpty(names[1..])|;
    if j >= skipped {
      OriginOrder(names[1..], j - skipped, j' - skipped);
    }
  }

  lemma SearchMeans(domains: map<string, AppId>, name: string, transformed: seq<string>, id: AppId)
    requires Answers(domains, Search(name, transformed), id)
    ensures AnswersFor(domains, name, transformed, id)
  {
    var search, names := Search(name, transformed), NonEmpty(transformed);
    if name == "" {
    } else if forall i :: 0 <= i < |transformed| ==> transformed[i] == "" {
      NothingLeft(transformed);
      NameAlone(domains, name, id);
    } else {
      var i: nat :| i < |transformed| && transformed[i] != "";
      var j := FilterKeeps(transformed, i);
      assert search == names;
      TransformsAnswer(domains, transformed, id);
    }
  }

  lemma {:induction false} NothingLeft(names: seq<string>)
    requires forall i :: 0 <= i < |names| ==> names[i] == ""
    ensures NonEmpty(names) == []
  {
    if names != [] {
      NothingLeft(names[1..]);
    }
  }

  lemma NameAlone(domains: map<string, AppId>, name: string, id: AppId)
    requires Answers(domains, [name], id)
    ensures if NoMatch(domains, name) then id == ND_APP_UNKNOWN
            else exists k: nat :: LongestMatch(domains, name, k) && id == domains[name[k..]]
  {
    assert [name][0] == name;
  }

  lemma TransformsAnswer(domains: map<string, AppId>, transformed: seq<string>, id: AppId)
    requires Answers(domains, NonEmpty(transformed), id)
    ensures if NoneMatches(domains, transformed) then id == ND_APP_UNKNOWN
            else exists i: nat, k: nat ::
                   FirstTransform(domains, transformed, i, k) && id == domains[transformed[i][k..]]
  {
    var names := NonEmpty(transformed);
    NoneLeft(domains, transformed);
    if !NoneOf(domains, names) {
      var j: nat, k: nat :| Decides(domains, names, j, k) && id == domains[names[j][k..]];
      FirstOrigin(domains, transformed, j, k);
      assert Match(domains, names[j], k);
    }
  }

  lemma NoneLeft(domains: map<string, AppId>, transformed: seq<string>)
    ensures NoneMatches(domains, transformed) <==> NoneOf(domains, NonEmpty(transformed))
  {
    if NoneMatches(domains, transformed) {
      NoneKept(domains, transformed);
    }
    if NoneOf(domains, NonEmpty(transformed)) {
      forall i | 0 <= i < |transformed| && transformed[i] != ""
        ensures NoMatch(domains, transformed[i])
      {
        var j := FilterKeeps(transformed, i);
        assert NoMatch(domains, NonEmpty(transformed)[j]);
      }
    }
  }

  ghost predicate NoneOf(domains: map<string, AppId>, names: seq<string>) {
    forall j :: 0 <= j < |names| ==> NoMatch(domains, names[j])
  }

  lemma NoneKept(domains: map<string, AppId>, transformed: seq<string>)
    requires NoneMatches(domains, transformed)
    ensures NoneOf(domains, NonEmpty(transformed))
  {
    var names := NonEmpty(transformed);
    forall j | 0 <= j < |names|
      ensures NoMatch(domains, names[j])
    {
      var i := Origin(transformed, j);
      assert transformed[i] == names[j] && names[j] != [];
      assert NoMatch(domains, transformed[i]);
    }
  }

  lemma FirstOrigin(domains: map<string, AppId>, transformed: seq<string>, j: nat, k: nat)
    requires Decides(domains, NonEmpty(transformed), j, k)
    ensures FirstTransform(domains, transformed, Origin(transformed, j), k)
  {
    var i := Origin(transformed, j);
    forall i' | 0 <= i' < i && transformed[i'] != ""
      ensures NoMatch(domains, transformed[i'])
    {
      var j' := FilterKeeps(transformed, i');
      if j < j' {
        OriginOrder(transformed, j, j');
      }
    }
  }

  /** The next match after `cut` lies behind the next dot. */
  lemma NextLabel(domains: map<string, AppId>, name: string, cut: nat, p: Option<nat>)
    requires cut < |name|
    requires p.None? ==> '.' !in name[cut..]
    requires p.Some? ==> p.value < |name| - cut && '.' !in name[cut..][..p.value]
    ensures forall k: nat :: cut < k && (p.Some? ==> k <= cut + p.value) ==> !Match(domains, name, k)
  {
    forall k: nat | cut < k < |name| && (p.Some? ==> k <= cut + p.value)
      ensures !Match(domains, name, k)
    {
      assert name[k - 1] == name[cut..][k - 1 - cut];
      assert p.Some? ==> name[k - 1] == name[cut..][..p.value][k - 1 - cut];
    }
  }

  /* ---- histories ---- */

  datatype Op = Add(id: AppId, domain: string) | Reset

  datatype State = State(domains: map<string, AppId>, tlds: set<string>)

  function Step(s: State, op: Op): State {
    match op
    case Add(id, d) =>
      State(if d in s.domains then s.domains else s.domains[d := id], if '.' in d then s.tlds else s.tlds + {d})
    case Reset => State(map[], s.tlds)
  }

  function Run(ops: seq<Op>): State {
    if ops == [] then State(map[], {}) else Step(Run(ops[..|ops| - 1]), ops[|ops| - 1])
  }

  lemma {:induction false} RunIndexed(ops: seq<Op>)
    ensures Indexed(Run(ops).domains, Run(ops).tlds)
  {
    if ops != [] {
      RunIndexed(ops[..|ops| - 1]);
    }
  }

  /** Added at `i`, with nothing before it since the last reset that adds the same domain. */
  ghost predicate FirstAdded(ops: seq<Op>, i: nat, d: string) {
    && i < |ops| && ops[i].Add? && ops[i].domain == d
    && (forall j :: i < j < |ops| ==> ops[j] != Reset)
    && (forall j :: 0 <= j < i && ops[j].Add? && ops[j].domain == d ==> exists r :: j < r < i && ops[r] == Reset)
  }

  ghost predicate Added(ops: seq<Op>, d: string) {
    exists i: nat :: FirstAdded(ops, i, d)
  }

  /** A domain is known exactly if it was added since the last reset, and the first addition decides its id. */
  lemma {:induction false} KnownByHistory(ops: seq<Op>, d: string)
    ensures d in Run(ops).domains <==> Added(ops, d)
    ensures forall i: nat :: FirstAdded(ops, i, d) ==> Run(ops).domains[d] == ops[i].id
    decreases |ops|
  {
    if ops != [] {
      var n := |ops| - 1;
      var front := ops[..n];
      KnownByHistory(front, d);
      forall i: nat | i < n
        ensures FirstAdded(ops, i, d) <==> FirstAdded(front, i, d) && ops[n] != Reset
      {
        AddedBefore(ops, i, d);
      }
      if ops[n].Add? && ops[n].domain == d {
        LastAdded(ops, d);
      }
    }
  }

  lemma AddedBefore(ops: seq<Op>, i: nat, d: string)
    requires i < |ops| - 1
    ensures FirstAdded(ops, i, d) <==> FirstAdded(ops[..|ops| - 1], i, d) && ops[|ops| - 1] != Reset
  {
    var front := ops[..|ops| - 1];
    assert forall j :: 0 <= j < |front| ==> front[j] == ops[j];
  }

  /** Before an addition that no reset follows, or at it, lies a first one. */
  lemma {:induction false} Earliest(ops: seq<Op>, j: nat, d: string)
    requires j < |ops| && ops[j].Add? && ops[j].domain == d
    requires forall r :: j < r < |ops| ==> ops[r] != Reset
    ensures Added(ops, d)
  {
    if !FirstAdded(ops, j, d) {
      var i: nat :| i < j && ops[i].Add? && ops[i].domain == d && forall r :: i < r < j ==> ops[r] != Reset;
      Earliest(ops, i, d);
    }
  }

  lemma LastAdded(ops: seq<Op>, d: string)
    requires ops != [] && ops[|ops| - 1].Add? && ops[|ops| - 1].domain == d
    requires d in Run(ops[..|ops| - 1]).domains <==> Added(ops[..|ops| - 1], d)
    ensures FirstAdded(ops, |ops| - 1, d) <==> !(d in Run(ops[..|ops| - 1]).domains)
  {
    var n := |ops| - 1;
    var front := ops[..n];
    assert forall j :: 0 <= j < n ==> front[j] == ops[j];
    if !FirstAdded(ops, n, d) {
      var j: nat :| j < n && ops[j].Add? && ops[j].domain == d && forall r :: j < r < n ==> ops[r] != Reset;
      Earliest(front, j, d);
    }
  }

  /* ---- the object ---- */

  class Applications {
    var domains: map<string, AppId>
    var tlds: set<string>

    function View(): State
      reads this
    {
      State(domains, tlds)
    }

    ghost predicate Valid()
      reads this
    {
      Indexed(domains, tlds)
    }

    constructor ()
      ensures Valid() && View() == Run([])
    {
      domains, tlds := map[], {};
    }

    method AddDomain(id: AppId, domain: string) returns (added: bool)
      requires Valid()
      modifies this
      ensures Valid() && View() == Step(old(View()), Add(id, domain))
      ensures added == (domain !in old(domains))
    {
      added := domain !in domains;
      if added {
        domains := domains[domain := id];
      }
      if '.' !in domain {
        tlds := tlds + {domain};
      }
    }

    method Reset()
      requires Valid()
      modifies this
      ensures Valid() && View() == Step(old(View()), Op.Reset)
    {
      domains := map[];
    }

    /** `transformed` holds what the domain transforms make of the name, in their order. */
    method Find(name: string, transformed: seq<string>) returns (id: AppId)
      requires Valid()
      ensures Answers(domains, Search(name, transformed), id)
      ensures AnswersFor(domains, name, transformed, id)
    {
      id := FindFirst(Search(name, transformed));
      SearchMeans(domains, name, transformed, id);
    }

    method FindFirst(search: seq<string>) returns (id: AppId)
      requires Valid()
      ensures Answers(domains, search, id)
    {
      var i := 0;
      while i < |search|
        invariant i <= |search| && forall j :: 0 <= j < i ==> NoMatch(domains, search[j])
      {
        var found := FindOne(search[i]);
        if found.Some? {
          ghost var k: nat :| LongestMatch(domains, search[i], k) && found.value == domains[search[i][k..]];
          assert Decides(domains, search, i, k);
          assert Match(domains, search[i], k);
          return found.value;
        }
        i := i + 1;
      }
      return ND_APP_UNKNOWN;
    }

    /** Cuts label after label off the front. */
    method FindOne(name: string) returns (found: Option<AppId>)
      requires Valid()
      ensures found.None? ==> NoMatch(domains, name)
      ensures found.Some? ==> exists k: nat :: LongestMatch(domains, name, k) && found.value == domains[name[k..]]
    {
      var it := name;
      ghost var cut: nat := 0;
      while it != []
        invariant cut <= |name| && it == name[cut..] && (cut == 0 || name[cut - 1] == '.')
        invariant forall j: nat :: j < cut ==> !Match(domains, name, j)
        decreases |it|
      {
        var p := IndexOfDot(it);
        NextLabel(domains, name, cut, p);
        if p.None? && it !in tlds {
          return None;
        }
        if it in domains {
          assert LongestMatch(domains, name, cut);
          return Some(domains[it]);
        }
        if p.None? {
          return None;
        }
        it := it[p.value + 1..];
        cut := cut + p.value + 1;
      }
      return None;
    }
  }

  method IndexOfDot(s: string) returns (p: Option<nat>)
    ensures p.None? ==> '.' !in s
    ensures p.Some? ==> p.value < |s| && s[p.value] == '.' && '.' !in s[..p.value]
  {
    for i := 0 to |s|
      invariant '.' !in s[..i]
    {
      if s[i] == '.' {
        return Some(i);
      }
    }
    return None;
  }
}
