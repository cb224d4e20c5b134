/** The read-only lookups over `User` and `UserSettings`: the group of a
    telegram user, and the two digest-subscriber queries, each an inner
    join on `User.id == UserSettings.user_id` followed by a filter and a
    projection. The queries have no ORDER BY, so their results are
    compared as multisets: `FlatMap` gives the nested-loop order, and the
    lemmas show that no other order of the tables changes the multiset. */
module UserDirectory {
  import opened Wrappers
  import opened Models

  /** `get_user_group_id`: the group column of the first user with that
      telegram id; `None` when there is no such user, or when that user's
      group is NULL. */
  function GetUserGroupId(users: seq<User>, telegramId: int): (r: Option<GroupId>)
    ensures (forall i :: 0 <= i < |users| ==> users[i].telegramId != telegramId) ==> r.None?
    ensures forall i :: 0 <= i < |users| && users[i].telegramId == telegramId
                        && (forall j :: 0 <= j < i ==> users[j].telegramId != telegramId)
                        ==> r == users[i].groupId
  {
    if users == [] then None
    else if users[0].telegramId == telegramId then users[0].groupId
    else GetUserGroupId(users[1..], telegramId)
  }

  /** `xs` mapped element-wise to sequences and concatenated in order. */
  function FlatMap<A, B>(xs: seq<A>, f: A -> seq<B>): seq<B>
  {
    if xs == [] then [] else f(xs[0]) + FlatMap(xs[1..], f)
  }

  lemma {:induction false} FlatMapMembers<A, B>(xs: seq<A>, f: A -> seq<B>, y: B)
    ensures y in FlatMap(xs, f) <==> exists x :: x in xs && y in f(x)
  {
    if xs != [] {
      FlatMapMembers(xs[1..], f, y);
      if y in f(xs[0]) {
        assert xs[0] in xs;
      }
      if x :| x in xs[1..] && y in f(x) {
        assert x in xs;
      }
      if x :| x in xs && y in f(x) {
        assert x == xs[0] || x in xs[1..];
      }
    }
  }

  lemma {:induction false} FlatMapConcat<A, B>(xs: seq<A>, ys: seq<A>, f: A -> seq<B>)
    ensures FlatMap(xs + ys, f) == FlatMap(xs, f) + FlatMap(ys, f)
  {
    if xs == [] {
      assert xs + ys == ys;
    } else {
      assert (xs + ys)[0] == xs[0] && (xs + ys)[1..] == xs[1..] + ys;
      FlatMapConcat(xs[1..], ys, f);
    }
  }

  /** Reordering the input leaves the multiset of outputs unchanged. */
  lemma {:induction false} FlatMapPermutation<A, B>(xs: seq<A>, ys: seq<A>, f: A -> seq<B>)
    requires multiset(xs) == multiset(ys)
    ensures multiset(FlatMap(xs, f)) == multiset(FlatMap(ys, f))
    decreases |xs|
  {
    if xs == [] {
      assert |ys| == |multiset(ys)| == 0;
    } else {
      var x := xs[0];
      assert x in multiset(ys);
      var k :| 0 <= k < |ys| && ys[k] == x;
      var before, after := ys[..k], ys[k + 1..];
      assert ys == before + [x] + after;
      RemoveMatching(xs, ys, k);
      FlatMapPermutation(xs[1..], before + after, f);
      FlatMapSplit(before, x, after, f);
      assert multiset(FlatMap(xs, f)) == multiset(f(x)) + multiset(FlatMap(xs[1..], f));
    }
  }

  lemma RemoveMatching<A>(xs: seq<A>, ys: seq<A>, k: nat)
    requires multiset(xs) == multiset(ys)
    requires xs != [] && k < |ys| && ys[k] == xs[0]
    ensures multiset(xs[1..]) == multiset(ys[..k] + ys[k + 1..])
  {
    var x, before, after := xs[0], ys[..k], ys[k + 1..];
    assert ys == before + [x] + after;
    assert xs == [x] + xs[1..];
    assert multiset(ys) == multiset(before) + multiset{x} + multiset(after);
    assert multiset(before + after) == multiset(before) + multiset(after);
    assert multiset(xs) == multiset{x} + multiset(xs[1..]);
    assert multiset(xs[1..]) == multiset(xs) - multiset{x};
    assert multiset(before + after) == multiset(ys) - multiset{x};
  }

  lemma FlatMapSplit<A, B>(before: seq<A>, x: A, after: seq<A>, f: A -> seq<B>)
    ensures multiset(FlatMap(before + [x] + after, f)) == multiset(f(x)) + multiset(FlatMap(before + after, f))
  {
    var b, a := FlatMap(before, f), FlatMap(after, f);
    assert FlatMap([x], f) == f(x) by {
      assert [x][1..] == [];
    }
    assert FlatMap(before + [x] + after, f) == b + (f(x) + a) by {
      assert before + [x] + after == before + ([x] + after);
      FlatMapConcat(before, [x] + after, f);
      FlatMapConcat([x], after, f);
    }
    FlatMapConcat(before, after, f);
    assert multiset(b + (f(x) + a)) == multiset(f(x)) + (multiset(b) + multiset(a));
  }

  /** Element-wise multiset-equal mappings give multiset-equal results. */
  lemma {:induction false} FlatMapPointwise<A, B>(xs: seq<A>, f: A -> seq<B>, g: A -> seq<B>)
    requires forall x :: x in xs ==> multiset(f(x)) == multiset(g(x))
    ensures multiset(FlatMap(xs, f)) == multiset(FlatMap(xs, g))
  {
    if xs != [] {
      assert xs[0] in xs;
      assert forall x :: x in xs[1..] ==> x in xs;
      FlatMapPointwise(xs[1..], f, g);
    }
  }

  /** The sum of `p` over `xs`. */
  function Sum<A>(xs: seq<A>, p: A -> nat): nat
  {
    if xs == [] then 0 else p(xs[0]) + Sum(xs[1..], p)
  }

  /** How often `y` occurs in `f(a)`, as a function of `a`. */
  function Occurrences<A, B(==)>(f: A -> seq<B>, y: B): A -> nat
  {
    (a: A) => multiset(f(a))[y]
  }

  /** An element occurs in the concatenation as often as in all the parts
      together. */
  lemma {:induction false} FlatMapCount<A, B>(xs: seq<A>, f: A -> seq<B>, y: B)
    ensures multiset(FlatMap(xs, f))[y] == Sum(xs, Occurrences(f, y))
  {
    if xs != [] {
      FlatMapCount(xs[1..], f, y);
      assert multiset(FlatMap(xs, f)) == multiset(f(xs[0])) + multiset(FlatMap(xs[1..], f));
    }
  }

  lemma {:induction false} SumPointwise<A>(xs: seq<A>, p: A -> nat, q: A -> nat)
    requires forall x :: x in xs ==> p(x) == q(x)
    ensures Sum(xs, p) == Sum(xs, q)
  {
    if xs != [] {
      assert xs[0] in xs;
      assert forall x :: x in xs[1..] ==> x in xs;
      SumPointwise(xs[1..], p, q);
    }
  }

  // ---------------------------------------------------------------------
  // get_users_with_today_digest

  datatype DigestRecipient = DigestRecipient(telegramId: int, groupId: Option<GroupId>, language: string)

  /** The join rows one user contributes, given the settings table. */
  function TodayDigestRowsOf(settings: seq<UserSettings>): User -> seq<DigestRecipient>
  {
    (u: User) => FlatMap(settings, TodayDigestRow(u))
  }

  function TodayDigestRow(u: User): UserSettings -> seq<DigestRecipient>
  {
    (s: UserSettings) => if u.id == s.userId && s.todayScheduleDigest then [DigestRecipient(u.telegramId, u.groupId, s.language)] else []
  }

  /** `get_users_with_today_digest`, in nested-loop join order: every
      triple occurs once per (user, settings) pair that produces it. */
  function UsersWithTodayDigest(users: seq<User>, settings: seq<UserSettings>): (r: seq<DigestRecipient>)
    ensures forall x :: multiset(r)[x] == TodayDigestPairs(users, settings, x)
  {
    TodayDigestCounted(users, settings);
    FlatMap(users, TodayDigestRowsOf(settings))
  }

  /** 1 when user `u` and settings row `s` join, have the today-digest flag
      set and project to `x`, and 0 otherwise. */
  function TodayDigestHit(u: User, x: DigestRecipient): UserSettings -> nat
  {
    (s: UserSettings) => if u.id == s.userId && s.todayScheduleDigest && x == DigestRecipient(u.telegramId, u.groupId, s.language) then 1 else 0
  }

  function TodayDigestHitsOf(settings: seq<UserSettings>, x: DigestRecipient): User -> nat
  {
    (u: User) => Sum(settings, TodayDigestHit(u, x))
  }

  /** The number of (user, settings) pairs that produce `x`. */
  function TodayDigestPairs(users: seq<User>, settings: seq<UserSettings>, x: DigestRecipient): nat
  {
    Sum(users, TodayDigestHitsOf(settings, x))
  }

  lemma TodayDigestCounted(users: seq<User>, settings: seq<UserSettings>)
    ensures forall x :: multiset(FlatMap(users, TodayDigestRowsOf(settings)))[x] == TodayDigestPairs(users, settings, x)
  {
    forall x
      ensures multiset(FlatMap(users, TodayDigestRowsOf(settings)))[x] == TodayDigestPairs(users, settings, x)
    {
      FlatMapCount(users, TodayDigestRowsOf(settings), x);
      forall u | u in users
        ensures Occurrences(TodayDigestRowsOf(settings), x)(u) == TodayDigestHitsOf(settings, x)(u)
      {
        FlatMapCount(settings, TodayDigestRow(u), x);
        SumPointwise(settings, Occurrences(TodayDigestRow(u), x), TodayDigestHit(u, x));
      }
      SumPointwise(users, Occurrences(TodayDigestRowsOf(settings), x), TodayDigestHitsOf(settings, x));
    }
  }

  /** A triple is returned exactly when some user and some settings row of
      that user with the today-digest flag set project to it; so the result
      is empty when no subscriber exists. */
  lemma TodayDigestMembers(users: seq<User>, settings: seq<UserSettings>, x: DigestRecipient)
    ensures x in UsersWithTodayDigest(users, settings) <==>
            exists u, s :: u in users && s in settings && u.id == s.userId && s.todayScheduleDigest
                           && x == DigestRecipient(u.telegramId, u.groupId, s.language)
  {
    FlatMapMembers(users, TodayDigestRowsOf(settings), x);
    forall u | u in users
      ensures x in TodayDigestRowsOf(settings)(u) <==> exists s :: s in settings && x in TodayDigestRow(u)(s)
    {
      FlatMapMembers(settings, TodayDigestRow(u), x);
    }
  }

  /** The result, as a multiset, does not depend on the order of either table. */
  lemma TodayDigestOrderIrrelevant(users: seq<User>, users': seq<User>, settings: seq<UserSettings>, settings': seq<UserSettings>)
    requires multiset(users) == multiset(users') && multiset(settings) == multiset(settings')
    ensures multiset(UsersWithTodayDigest(users, settings)) == multiset(UsersWithTodayDigest(users', settings'))
  {
    FlatMapPermutation(users, users', TodayDigestRowsOf(settings));
    forall u | u in users'
      ensures multiset(TodayDigestRowsOf(settings)(u)) == multiset(TodayDigestRowsOf(settings')(u))
    {
      FlatMapPermutation(settings, settings', TodayDigestRow(u));
    }
    FlatMapPointwise(users', TodayDigestRowsOf(settings), TodayDigestRowsOf(settings'));
  }

  // ---------------------------------------------------------------------
  // get_students_by_group_with_digest

  function GroupDigestRowsOf(settings: seq<UserSettings>, groupId: GroupId): User -> seq<int>
  {
    (u: User) => FlatMap(settings, GroupDigestRow(u, groupId))
  }

  function GroupDigestRow(u: User, groupId: GroupId): UserSettings -> seq<int>
  {
    (s: UserSettings) => if u.id == s.userId && u.groupId == Some(groupId) && s.dailyDigest then [u.telegramId] else []
  }

  /** `get_students_by_group_with_digest(group_id)`, in nested-loop join
      order: every telegram id occurs once per (user, settings) pair that
      produces it. */
  function StudentsByGroupWithDigest(users: seq<User>, settings: seq<UserSettings>, groupId: GroupId): (r: seq<int>)
    ensures forall t :: multiset(r)[t] == GroupDigestPairs(users, settings, groupId, t)
  {
    GroupDigestCounted(users, settings, groupId);
    FlatMap(users, GroupDigestRowsOf(settings, groupId))
  }

  /** 1 when user `u` and settings row `s` join, the user is in the group,
      the daily-digest flag is set and the user's telegram id is `t`. */
  function GroupDigestHit(u: User, groupId: GroupId, t: int): UserSettings -> nat
  {
    (s: UserSettings) => if u.id == s.userId && u.groupId == Some(groupId) && s.dailyDigest && t == u.telegramId then 1 else 0
  }

  function GroupDigestHitsOf(settings: seq<UserSettings>, groupId: GroupId, t: int): User -> nat
  {
    (u: User) => Sum(settings, GroupDigestHit(u, groupId, t))
  }

  /** The number of (user, settings) pairs that produce `t`. */
  function GroupDigestPairs(users: seq<User>, settings: seq<UserSettings>, groupId: GroupId, t: int): nat
  {
    Sum(users, GroupDigestHitsOf(settings, groupId, t))
  }

  lemma GroupDigestCounted(users: seq<User>, settings: seq<UserSettings>, groupId: GroupId)
    ensures forall t :: multiset(FlatMap(users, GroupDigestRowsOf(settings, groupId)))[t] == GroupDigestPairs(users, settings, groupId, t)
  {
    forall t
      ensures multiset(FlatMap(users, GroupDigestRowsOf(settings, groupId)))[t] == GroupDigestPairs(users, settings, groupId, t)
    {
      FlatMapCount(users, GroupDigestRowsOf(settings, groupId), t);
      forall u | u in users
        ensures Occurrences(GroupDigestRowsOf(settings, groupId), t)(u) == GroupDigestHitsOf(settings, groupId, t)(u)
      {
        FlatMapCount(settings, GroupDigestRow(u, groupId), t);
        SumPointwise(settings, Occurrences(GroupDigestRow(u, groupId), t), GroupDigestHit(u, groupId, t));
      }
      SumPointwise(users, Occurrences(GroupDigestRowsOf(settings, groupId), t), GroupDigestHitsOf(settings, groupId, t));
    }
  }

  /** A telegram id is returned exactly when a user with that id is in the
      group and has a settings row with the daily-digest flag set (a NULL
      group never matches). */
  lemma GroupDigestMembers(users: seq<User>, settings: seq<UserSettings>, groupId: GroupId, t: int)
    ensures t in StudentsByGroupWithDigest(users, settings, groupId) <==>
            exists u, s :: u in users && s in settings && u.id == s.userId && u.groupId == Some(groupId)
                           && s.dailyDigest && t == u.telegramId
  {
    FlatMapMembers(users, GroupDigestRowsOf(settings, groupId), t);
    forall u | u in users
      ensures t in GroupDigestRowsOf(settings, groupId)(u) <==> exists s :: s in settings && t in GroupDigestRow(u, groupId)(s)
    {
      FlatMapMembers(settings, GroupDigestRow(u, groupId), t);
    }
  }

  lemma GroupDigestOrderIrrelevant(users: seq<User>, users': seq<User>, settings: seq<UserSettings>, settings': seq<UserSettings>, groupId: GroupId)
    requires multiset(users) == multiset(users') && multiset(settings) == multiset(settings')
    ensures multiset(StudentsByGroupWithDigest(users, settings, groupId)) == multiset(StudentsByGroupWithDigest(users', settings', groupId))
  {
    FlatMapPermutation(users, users', GroupDigestRowsOf(settings, groupId));
    forall u | u in users'
      ensures multiset(GroupDigestRowsOf(settings, groupId)(u)) == multiset(GroupDigestRowsOf(settings', groupId)(u))
    {
      FlatMapPermutation(settings, settings', GroupDigestRow(u, groupId));
    }
    FlatMapPointwise(users', GroupDigestRowsOf(settings, groupId), GroupDigestRowsOf(settings', groupId));
  }
}
