/**
 * The read side of the policy service (src/services/policyService.js): the
 * per-user aggregation pipeline, the search by user name and the bounded
 * listing. Collections are sequences in scan order and a document's id is its
 * position, as in the rest of the model; the case-insensitive name regex is a
 * parameter.
 */
module PolicyService {
  import opened Wrappers
  import opened Models

  /** One entry of a group's `policies` array (the `$push` projection). */
  datatype PolicyEntry = PolicyEntry(
    policy_number: string, policy_type: string, premium_amount: real,
    policy_start_date: When, policy_end_date: When)

  /** The `user` sub-document of a group (the `$project` of the looked-up user). */
  datatype UserInfo = UserInfo(firstname: string, email: string, phone: string)

  /** One element of the aggregation result. */
  datatype Group = Group(id: Id, user: UserInfo, totalPolicies: nat, totalPremium: real, policies: seq<PolicyEntry>)

  function Entry(p: Policy): PolicyEntry {
    PolicyEntry(p.policy_number, p.policy_type, p.premium_amount, p.policy_start_date, p.policy_end_date)
  }

  function Info(u: User): UserInfo {
    UserInfo(u.firstname, u.email, u.phone)
  }

  /** The positions of the policies that belong to user `id`. */
  function Owned(ps: seq<Policy>, id: Id): set<nat> {
    set i | 0 <= i < |ps| && ps[i].user_id == id
  }

  /** `$push`: the entries of user `id`'s policies, in scan order. */
  function EntriesOf(ps: seq<Policy>, id: Id): (r: seq<PolicyEntry>)
    ensures |r| <= |ps|
  {
    if ps == [] then []
    else EntriesOf(ps[..|ps| - 1], id) + (if ps[|ps| - 1].user_id == id then [Entry(ps[|ps| - 1])] else [])
  }

  /** The user's policies, laid out in scan order. */
  lemma OwnedStep(ps: seq<Policy>, id: Id)
    requires ps != []
    ensures var init := ps[..|ps| - 1];
            Owned(ps, id) == Owned(init, id) + (if ps[|ps| - 1].user_id == id then {|ps| - 1} else {})
    ensures |ps| - 1 !in Owned(ps[..|ps| - 1], id)
  {
  }

  /**
   * A group's entries are exactly its user's policies: one entry per
   * policy, and nothing from another user's.
   */
  lemma EntriesOfSpec(ps: seq<Policy>, id: Id)
    ensures |EntriesOf(ps, id)| == |Owned(ps, id)|
    ensures forall i :: 0 <= i < |ps| && ps[i].user_id == id ==> Entry(ps[i]) in EntriesOf(ps, id)
    ensures forall e :: e in EntriesOf(ps, id) ==> exists i :: 0 <= i < |ps| && ps[i].user_id == id && Entry(ps[i]) == e
  {
    EntriesCount(ps, id);
    EntriesComplete(ps, id);
    EntriesSound(ps, id);
  }

  lemma {:induction false} EntriesCount(ps: seq<Policy>, id: Id)
    ensures |EntriesOf(ps, id)| == |Owned(ps, id)|
  {
    if ps != [] {
      EntriesCount(ps[..|ps| - 1], id);
      OwnedStep(ps, id);
    }
  }

  lemma {:induction false} EntriesComplete(ps: seq<Policy>, id: Id)
    ensures forall i :: 0 <= i < |ps| && ps[i].user_id == id ==> Entry(ps[i]) in EntriesOf(ps, id)
  {
    if ps != [] {
      var init := ps[..|ps| - 1];
      EntriesComplete(init, id);
      forall i | 0 <= i < |ps| && ps[i].user_id == id ensures Entry(ps[i]) in EntriesOf(ps, id) {
        if i < |init| {
          assert init[i] == ps[i];
          assert Entry(init[i]) in EntriesOf(init, id);
        }
      }
    }
  }

  lemma {:induction false} EntriesSound(ps: seq<Policy>, id: Id)
    ensures forall e :: e in EntriesOf(ps, id) ==> exists i :: 0 <= i < |ps| && ps[i].user_id == id && Entry(ps[i]) == e
  {
    if ps != [] {
      var init := ps[..|ps| - 1];
      EntriesSound(init, id);
      forall e | e in EntriesOf(ps, id) ensures exists i :: 0 <= i < |ps| && ps[i].user_id == id && Entry(ps[i]) == e {
        if e in EntriesOf(init, id) {
          var i :| 0 <= i < |init| && init[i].user_id == id && Entry(init[i]) == e;
          assert ps[i] == init[i];
        } else {
          assert ps[|ps| - 1].user_id == id && Entry(ps[|ps| - 1]) == e;
        }
      }
    }
  }

  /** `$sum: '$premium_amount'` over a group's entries. */
  function SumPremium(es: seq<PolicyEntry>): real {
    if es == [] then 0.0 else SumPremium(es[..|es| - 1]) + es[|es| - 1].premium_amount
  }

  /** The distinct `user_id` values, in order of first appearance. */
  function UserIds(ps: seq<Policy>): (r: seq<Id>)
    ensures forall i, j :: 0 <= i < j < |r| ==> r[i] != r[j]
    ensures forall id :: id in r <==> exists i :: 0 <= i < |ps| && ps[i].user_id == id
  {
    if ps == [] then []
    else
      var rest := UserIds(ps[..|ps| - 1]);
      var id := ps[|ps| - 1].user_id;
      assert forall i :: 0 <= i < |ps| - 1 ==> ps[..|ps| - 1][i] == ps[i];
      if id in rest then rest else rest + [id]
  }

  /** The group of user `id`: its count, premium total and entries. */
  function GroupOf(ps: seq<Policy>, users: seq<User>, id: Id): Group
    requires id < |users|
  {
    var es := EntriesOf(ps, id);
    Group(id, Info(users[id]), |es|, SumPremium(es), es)
  }

  predicate DistinctIds(gs: seq<Group>) {
    forall i, j :: 0 <= i < j < |gs| ==> gs[i].id != gs[j].id
  }

  /** The ids of the groups. */
  function GroupIds(gs: seq<Group>): set<Id> {
    set i | 0 <= i < |gs| :: gs[i].id
  }

  lemma GroupIdsCons(g: Group, gs: seq<Group>)
    ensures GroupIds([g] + gs) == {g.id} + GroupIds(gs)
  {
    var r := [g] + gs;
    forall x | x in GroupIds(r) ensures x in {g.id} + GroupIds(gs) {
      var i :| 0 <= i < |r| && r[i].id == x;
      if i > 0 {
        assert gs[i - 1].id == x;
      }
    }
    forall x | x in GroupIds(gs) ensures x in GroupIds(r) {
      var i :| 0 <= i < |gs| && gs[i].id == x;
      assert r[i + 1].id == x;
    }
    assert r[0].id == g.id;
  }

  /** `$group` then `$lookup`/`$unwind`: one group per listed id that names a user; the others are dropped. */
  function GroupsFor(ids: seq<Id>, ps: seq<Policy>, users: seq<User>): (r: seq<Group>)
    requires forall i, j :: 0 <= i < j < |ids| ==> ids[i] != ids[j]
    ensures DistinctIds(r)
    ensures forall g :: g in r ==> g.policies == EntriesOf(ps, g.id) && g.id < |users| && g.user == Info(users[g.id])
    ensures forall g :: g in r ==> g.totalPolicies == |g.policies| && g.totalPremium == SumPremium(g.policies)
    ensures forall id :: id in GroupIds(r) <==> id in ids && id < |users|
  {
    if ids == [] then []
    else
      var rest := GroupsFor(ids[1..], ps, users);
      assert ids[0] !in ids[1..] by {
        assert forall i :: 1 <= i < |ids| ==> ids[i] == ids[1..][i - 1];
      }
      if ids[0] < |users| then
        var g := GroupOf(ps, users, ids[0]);
        GroupIdsCons(g, rest);
        DistinctCons(g, rest);
        [g] + rest
      else rest
  }

  predicate SortedByTotal(gs: seq<Group>) {
    forall i, j :: 0 <= i < j < |gs| ==> gs[i].totalPolicies >= gs[j].totalPolicies
  }

  /** Prepending a group with a fresh id keeps the ids distinct. */
  lemma DistinctCons(g: Group, gs: seq<Group>)
    requires DistinctIds(gs) && g.id !in GroupIds(gs)
    ensures DistinctIds([g] + gs)
  {
    var r := [g] + gs;
    forall i, j | 0 <= i < j < |r| ensures r[i].id != r[j].id {
      assert r[j] == gs[j - 1];
      if i > 0 {
        assert r[i] == gs[i - 1];
      } else {
        assert gs[j - 1].id in GroupIds(gs);
      }
    }
  }

  /** A group with a total at least every other total can go first. */
  lemma SortedCons(h: Group, gs: seq<Group>)
    requires SortedByTotal(gs)
    requires forall k :: 0 <= k < |gs| ==> h.totalPolicies >= gs[k].totalPolicies
    ensures SortedByTotal([h] + gs)
  {
    var r := [h] + gs;
    assert forall k :: 1 <= k < |r| ==> r[k] == gs[k - 1];
  }

  /** What `head` dominates before an insertion it still dominates after it. */
  lemma DominatesAfterInsert(head: Group, g: Group, tail: seq<Group>, rest: seq<Group>)
    requires multiset(rest) == multiset(tail) + multiset{g}
    requires head.totalPolicies >= g.totalPolicies
    requires forall k :: 0 <= k < |tail| ==> head.totalPolicies >= tail[k].totalPolicies
    ensures forall k :: 0 <= k < |rest| ==> head.totalPolicies >= rest[k].totalPolicies
  {
    forall k | 0 <= k < |rest| ensures head.totalPolicies >= rest[k].totalPolicies {
      assert rest[k] in multiset(rest);
      if rest[k] != g {
        assert rest[k] in multiset(tail);
        var m :| 0 <= m < |tail| && tail[m] == rest[k];
      }
    }
  }

  /** What inserting `g` into `gs` must give: a sorted list with distinct ids holding `gs` and `g`. */
  predicate InsertPost(g: Group, gs: seq<Group>, r: seq<Group>) {
    && SortedByTotal(r) && DistinctIds(r)
    && multiset(r) == multiset(gs) + multiset{g}
    && GroupIds(r) == GroupIds(gs) + {g.id}
  }

  /** Places `g` before the first group with a smaller total. */
  function Insert(g: Group, gs: seq<Group>): (r: seq<Group>)
    requires SortedByTotal(gs)
    requires DistinctIds(gs) && g.id !in GroupIds(gs)
    ensures SortedByTotal(r) && DistinctIds(r)
    ensures multiset(r) == multiset(gs) + multiset{g}
    ensures GroupIds(r) == GroupIds(gs) + {g.id}
  {
    if gs == [] || g.totalPolicies >= gs[0].totalPolicies then
      GroupIdsCons(g, gs);
      DistinctCons(g, gs);
      SortedCons(g, gs);
      [g] + gs
    else
      InsertTail(g, gs);
      var rest := Insert(g, gs[1..]);
      InsertStep(g, gs, rest);
      [gs[0]] + rest
  }

  /** The tail of a sorted list with distinct ids, and `g` still fresh for it. */
  lemma InsertTail(g: Group, gs: seq<Group>)
    requires gs != [] && SortedByTotal(gs) && DistinctIds(gs) && g.id !in GroupIds(gs)
    ensures SortedByTotal(gs[1..]) && DistinctIds(gs[1..]) && g.id !in GroupIds(gs[1..])
    ensures forall k :: 0 <= k < |gs[1..]| ==> gs[0].totalPolicies >= gs[1..][k].totalPolicies
  {
    DistinctUncons(gs);
  }

  /** Keeping the head in front of the insertion into the tail. */
  lemma InsertStep(g: Group, gs: seq<Group>, rest: seq<Group>)
    requires gs != [] && SortedByTotal(gs) && DistinctIds(gs) && g.id !in GroupIds(gs)
    requires g.totalPolicies < gs[0].totalPolicies
    requires InsertPost(g, gs[1..], rest)
    ensures InsertPost(g, gs, [gs[0]] + rest)
  {
    var head := gs[0];
    var tail := gs[1..];
    DistinctUncons(gs);
    assert forall k :: 0 <= k < |tail| ==> head.totalPolicies >= tail[k].totalPolicies by {
      assert forall k :: 0 <= k < |tail| ==> tail[k] == gs[k + 1];
    }
    GroupIdsCons(head, rest);
    DistinctCons(head, rest);
    DominatesAfterInsert(head, g, tail, rest);
    SortedCons(head, rest);
    assert gs == [head] + tail;
  }

  /**
   * `$sort: {totalPolicies: -1}`, by insertion. The database leaves the order
   * of equal totals open; this sort keeps them in their incoming order.
   */
  function SortByTotal(gs: seq<Group>): (r: seq<Group>)
    requires DistinctIds(gs)
    ensures SortedByTotal(r) && DistinctIds(r)
    ensures multiset(r) == multiset(gs)
    ensures GroupIds(r) == GroupIds(gs)
  {
    if gs == [] then []
    else
      DistinctUncons(gs);
      Insert(gs[0], SortByTotal(gs[1..]))
  }

  /** Splitting off the first group of a list with distinct ids. */
  lemma DistinctUncons(gs: seq<Group>)
    requires gs != [] && DistinctIds(gs)
    ensures DistinctIds(gs[1..]) && gs[0].id !in GroupIds(gs[1..])
    ensures multiset(gs) == multiset(gs[1..]) + multiset{gs[0]}
    ensures GroupIds(gs) == GroupIds(gs[1..]) + {gs[0].id}
  {
    var tail := gs[1..];
    assert gs == [gs[0]] + tail;
    forall i, j | 0 <= i < j < |tail| ensures tail[i].id != tail[j].id {
      assert tail[i] == gs[i + 1] && tail[j] == gs[j + 1];
    }
    forall x | x in GroupIds(tail) ensures x != gs[0].id {
      var i :| 0 <= i < |tail| && tail[i].id == x;
      assert tail[i] == gs[i + 1];
    }
    GroupIdsCons(gs[0], tail);
  }

  /** A permutation has the same members. */
  lemma SameMembers(a: seq<Group>, b: seq<Group>)
    requires multiset(a) == multiset(b)
    ensures forall h :: h in a <==> h in b
  {
    forall h ensures h in a <==> h in b {
      assert h in a <==> h in multiset(a);
      assert h in b <==> h in multiset(b);
    }
  }

  /** The users that own at least one policy. */
  function Owners(ps: seq<Policy>): set<Id> {
    set i | 0 <= i < |ps| :: ps[i].user_id
  }

  /**
   * `getAggregatedByUser()`: one group per distinct `user_id` that names a
   * stored user, with that user's policy count, premium total and one entry
   * per policy; policies of unknown users are dropped; the groups come in
   * non-increasing order of `totalPolicies`.
   */
  function GetAggregatedByUser(ps: seq<Policy>, users: seq<User>): (r: seq<Group>)
    ensures SortedByTotal(r)
    ensures DistinctIds(r)
    ensures forall g :: g in r ==> g.id < |users| && g.user == Info(users[g.id]) && g.policies == EntriesOf(ps, g.id)
    ensures forall g :: g in r ==> g.totalPolicies == |g.policies| && g.totalPremium == SumPremium(g.policies)
    ensures forall id :: id in GroupIds(r) <==> id in Owners(ps) && id < |users|
  {
    var ids := UserIds(ps);
    assert forall id :: id in ids <==> id in Owners(ps);
    var groups := GroupsFor(ids, ps, users);
    SameMembers(groups, SortByTotal(groups));
    SortByTotal(groups)
  }

  /** The premium total is the sum over the user's policies, whatever their order. */
  lemma {:induction false} EntriesOfAppend(ps: seq<Policy>, qs: seq<Policy>, id: Id)
    ensures EntriesOf(ps + qs, id) == EntriesOf(ps, id) + EntriesOf(qs, id)
  {
    if qs == [] {
      assert ps + qs == ps;
    } else {
      var init := qs[..|qs| - 1];
      EntriesOfAppend(ps, init, id);
      assert (ps + qs)[..|ps + qs| - 1] == ps + init;
    }
  }

  lemma {:induction false} SumPremiumAppend(a: seq<PolicyEntry>, b: seq<PolicyEntry>)
    ensures SumPremium(a + b) == SumPremium(a) + SumPremium(b)
  {
    if b == [] {
      assert a + b == a;
    } else {
      SumPremiumAppend(a, b[..|b| - 1]);
      assert (a + b)[..|a + b| - 1] == a + b[..|b| - 1];
    }
  }

  /**
   * Adding policies of other users leaves a user's group unchanged, and
   * adding policies of the same user adds their premiums to the total.
   */
  lemma GroupGrows(ps: seq<Policy>, qs: seq<Policy>, users: seq<User>, id: Id)
    requires id < |users|
    ensures GroupOf(ps + qs, users, id).totalPolicies == GroupOf(ps, users, id).totalPolicies + GroupOf(qs, users, id).totalPolicies
    ensures GroupOf(ps + qs, users, id).totalPremium == GroupOf(ps, users, id).totalPremium + GroupOf(qs, users, id).totalPremium
  {
    EntriesOfAppend(ps, qs, id);
    SumPremiumAppend(EntriesOf(ps, id), EntriesOf(qs, id));
  }

  /**
   * Two policies of one stored user, premiums 1500 and 2000, aggregate into a
   * single group with 2 policies and a total of 3500.
   */
  lemma TwoPoliciesOneGroup(p1: Policy, p2: Policy, users: seq<User>)
    requires p1.user_id == p2.user_id < |users|
    requires p1.premium_amount == 1500.0 && p2.premium_amount == 2000.0
    ensures |GetAggregatedByUser([p1, p2], users)| == 1
    ensures GetAggregatedByUser([p1, p2], users)[0].totalPolicies == 2
    ensures GetAggregatedByUser([p1, p2], users)[0].totalPremium == 3500.0
  {
    var ps := [p1, p2];
    var id := p1.user_id;
    SameOwnerIds(p1, p2);
    SingleOwnerOneGroup(ps, users, id);
    SameOwnerEntries(p1, p2);
    assert SumPremium([Entry(p1)]) == 1500.0 by {
      assert [Entry(p1)][..0] == [];
    }
    assert [Entry(p1), Entry(p2)][..1] == [Entry(p1)];
  }

  /** Two policies of one user list that user once. */
  lemma SameOwnerIds(p1: Policy, p2: Policy)
    requires p1.user_id == p2.user_id
    ensures UserIds([p1, p2]) == [p1.user_id]
  {
    assert [p1, p2][..1] == [p1];
    assert [p1][..0] == [];
    assert UserIds([p1]) == [p1.user_id];
  }

  /** Two policies of one user are both that user's entries, in order. */
  lemma SameOwnerEntries(p1: Policy, p2: Policy)
    requires p1.user_id == p2.user_id
    ensures EntriesOf([p1, p2], p1.user_id) == [Entry(p1), Entry(p2)]
  {
    assert [p1, p2][..1] == [p1];
    assert [p1][..0] == [];
  }

  /** Policies that all belong to one stored user aggregate into that user's group alone. */
  lemma SingleOwnerOneGroup(ps: seq<Policy>, users: seq<User>, id: Id)
    requires UserIds(ps) == [id] && id < |users|
    ensures GetAggregatedByUser(ps, users) == [GroupOf(ps, users, id)]
  {
    var g := GroupOf(ps, users, id);
    assert [id][1..] == [];
    assert GroupsFor([id], ps, users) == [g];
    assert [g][1..] == [];
    assert SortByTotal([g]) == [g];
  }

  /** `new RegExp(username, 'i')`: a matcher, or the SyntaxError an invalid pattern throws. */
  datatype Regex = Compiled(matches: string -> bool) | Invalid(message: string)

  /**
   * `searchByUsername(username)`: building the pattern throws for an invalid
   * one, and the error is rethrown; otherwise the policies whose user matches.
   */
  function SearchByUsername(ps: seq<Policy>, users: seq<User>, regex: Regex): (r: Result<seq<Policy>>)
    ensures r.Failure? <==> regex.Invalid?
    ensures regex.Invalid? ==> r.error == regex.message
    ensures r.Success? ==> |r.value| <= |ps|
    ensures r.Success? ==> forall p :: p in r.value <==>
              p in ps && p.user_id < |users| && regex.matches(users[p.user_id].firstname)
  {
    match regex
    case Invalid(message) => Failure(message)
    case Compiled(nameMatches) => Success(MatchingPolicies(ps, users, nameMatches))
  }

  /**
   * The populate step nulls `user_id` when the user is missing or its first
   * name does not match, and those policies are filtered out; the rest keep
   * their order.
   */
  function MatchingPolicies(ps: seq<Policy>, users: seq<User>, nameMatches: string -> bool): (r: seq<Policy>)
    ensures |r| <= |ps|
    ensures forall p :: p in r <==> p in ps && p.user_id < |users| && nameMatches(users[p.user_id].firstname)
  {
    if ps == [] then []
    else
      var rest := MatchingPolicies(ps[1..], users, nameMatches);
      var p := ps[0];
      assert forall q :: q in ps <==> q == p || q in ps[1..];
      if p.user_id < |users| && nameMatches(users[p.user_id].firstname) then [p] + rest else rest
  }

  /** The search is a filter: it distributes over concatenation, so the relative order of kept policies is the stored order. */
  lemma {:induction false} SearchKeepsOrder(ps: seq<Policy>, qs: seq<Policy>, users: seq<User>, nameMatches: string -> bool)
    ensures MatchingPolicies(ps + qs, users, nameMatches) ==
              MatchingPolicies(ps, users, nameMatches) + MatchingPolicies(qs, users, nameMatches)
  {
    if ps == [] {
      assert ps + qs == qs;
    } else {
      var all := ps + qs;
      assert all[0] == ps[0];
      assert all[1..] == ps[1..] + qs;
      SearchKeepsOrder(ps[1..], qs, users, nameMatches);
    }
  }

  const DefaultLimit := 100

  /**
   * `getAll(limit = 100)` with the database's reading of `limit(n)`: zero
   * means no limit and a negative bound counts by its absolute value. The
   * result is the first policies in scan order.
   */
  function GetAll(ps: seq<Policy>, limit: Option<int>): (r: seq<Policy>)
    ensures |r| <= |ps| && r == ps[..|r|]
    ensures var n := limit.GetOr(DefaultLimit);
            |r| == if n == 0 || |ps| <= (if n < 0 then -n else n) then |ps| else (if n < 0 then -n else n)
    ensures limit.None? ==> |r| <= DefaultLimit
  {
    var n := limit.GetOr(DefaultLimit);
    var bound := if n < 0 then -n else n;
    if n == 0 || |ps| <= bound then ps else ps[..bound]
  }

  /**
   * The controller reads `parseInt(req.query.limit) || 100`: an absent,
   * unparsable or zero limit becomes 100.
   */
  function ControllerLimit(parsed: Option<int>): (n: int)
    ensures n != 0
    ensures parsed.Some? && parsed.value != 0 ==> n == parsed.value
    ensures parsed.None? || parsed.value == 0 ==> n == DefaultLimit
  {
    if parsed.Some? && parsed.value != 0 then parsed.value else DefaultLimit
  }

  /** Through the endpoint the listing is empty only when no policy is stored, and a limit of 1 returns at most one. */
  lemma EndpointListing(ps: seq<Policy>, parsed: Option<int>)
    ensures GetAll(ps, Some(ControllerLimit(parsed))) == [] <==> ps == []
    ensures parsed == Some(1) ==> |GetAll(ps, Some(ControllerLimit(parsed)))| <= 1
  {
  }
}
