/** The batch scheduler of `scheduleMultiplePostsInBatchesForMultipleCookies`
    and the same loop written out again in `main`: for each cookie set in turn,
    cut the post list into consecutive slices of `batchSize`, schedule every
    post of a slice at once (fire-and-forget, `schedulePost(..., 0, cookies)`),
    and wait `interval` milliseconds after a slice only when another slice of
    the same account follows. */
module Scheduler {
  import opened Outcomes
  import Publish

  /** One cookie record of a cookie set; cookie sets are passed through untouched. */
  datatype Cookie = Cookie(name: string, value: string, domain: string, path: string, httpOnly: bool, secure: bool)

  type CookieSet = seq<Cookie>

  /** What the scheduling loops do, in order. `account` is not an argument of
      `schedulePost`: it records the index of the cookie set whose loop
      iteration scheduled the post, so that per-account properties can be
      stated. */
  datatype Action =
    | Schedule(account: nat, post: Publish.Post, delayTime: int, cookies: CookieSet)  // schedulePost(...)
    | Cooldown(ms: int)                                                             // await delay(interval)

  datatype MainRun = MainRun(actions: seq<Action>, settled: Settled)

  /** What `posts.length` throws when `postsForCookies[i]` is `undefined`. */
  const UndefinedLength := Error("Cannot read properties of undefined (reading 'length')")

  function Min(a: int, b: int): int
  {
    if a < b then a else b
  }

  /** The batches of a post list: the first `size` posts, then the batches of the rest. */
  function Batches<T>(posts: seq<T>, size: nat): seq<seq<T>>
    requires size > 0
    decreases |posts|
  {
    if posts == [] then []
    else if |posts| <= size then [posts]
    else [posts[..size]] + Batches(posts[size..], size)
  }

  function Flatten<T>(batches: seq<seq<T>>): seq<T>
  {
    if batches == [] then [] else batches[0] + Flatten(batches[1..])
  }

  /** Concatenating the batches gives back the post list, in order. */
  lemma {:induction false} FlattenBatches<T>(posts: seq<T>, size: nat)
    requires size > 0
    ensures Flatten(Batches(posts, size)) == posts
    decreases |posts|
  {
    if |posts| > size {
      FlattenBatches(posts[size..], size);
      assert posts[..size] + posts[size..] == posts;
    } else if posts != [] {
      assert Flatten([posts]) == posts + Flatten([]);
    }
  }

  /** No batch is empty, none holds more than `size` posts, and every batch but
      the last holds exactly `size`. */
  lemma {:induction false} BatchSizes<T>(posts: seq<T>, size: nat)
    requires size > 0
    ensures forall k :: 0 <= k < |Batches(posts, size)| ==> 0 < |Batches(posts, size)[k]| <= size
    ensures forall k :: 0 <= k < |Batches(posts, size)| - 1 ==> |Batches(posts, size)[k]| == size
    decreases |posts|
  {
    if |posts| > size {
      BatchSizes(posts[size..], size);
      var bs := Batches(posts, size);
      var bs' := Batches(posts[size..], size);
      assert bs == [posts[..size]] + bs';
      forall k | 0 <= k < |bs|
        ensures 0 < |bs[k]| <= size && (k < |bs| - 1 ==> |bs[k]| == size)
      {
        if k > 0 {
          assert bs[k] == bs'[k - 1];
        } else {
          assert bs[0] == posts[..size];
        }
      }
    }
  }

  /** The number b of batches satisfies (b - 1) * size < n <= b * size, and is
      zero exactly for an empty list. */
  lemma {:induction false} BatchBounds<T>(posts: seq<T>, size: nat)
    requires size > 0
    ensures var b := |Batches(posts, size)|;
      && (b == 0 <==> posts == [])
      && (b != 0 ==> (b - 1) * size < |posts| <= b * size)
    decreases |posts|
  {
    if |posts| > size {
      var b' := |Batches(posts[size..], size)|;
      BatchBounds(posts[size..], size);
      assert (b' - 1) * size + size == b' * size;
      assert b' * size + size == (b' + 1) * size;
    }
  }

  /** The batches partition the post list: none is empty, none holds more than
      `size` posts, every batch but the last holds exactly `size`, together they
      give back the list in order, and their number b satisfies
      (b - 1) * size < n <= b * size. */
  lemma BatchesPartition<T>(posts: seq<T>, size: nat)
    requires size > 0
    ensures var bs := Batches(posts, size);
      && Flatten(bs) == posts
      && (forall k :: 0 <= k < |bs| ==> 0 < |bs[k]| <= size)
      && (forall k :: 0 <= k < |bs| - 1 ==> |bs[k]| == size)
      && (bs == [] <==> posts == [])
      && (bs != [] ==> (|bs| - 1) * size < |posts| <= |bs| * size)
  {
    FlattenBatches(posts, size);
    BatchSizes(posts, size);
    BatchBounds(posts, size);
  }

  lemma DivUnique(x: int, size: nat, b: int)
    requires size > 0 && b * size <= x < (b + 1) * size
    ensures x / size == b
  {
    var q, r := x / size, x % size;
    assert x == q * size + r;
    MulLess(q, b + 1, size);
    MulLess(b, q + 1, size);
  }

  lemma MulLess(a: int, c: int, size: nat)
    requires size > 0
    ensures a * size < c * size <==> a < c
  {
  }

  /** There are ceil(n / size) batches. */
  lemma BatchCount<T>(posts: seq<T>, size: nat)
    requires size > 0
    ensures |Batches(posts, size)| == (|posts| + size - 1) / size
  {
    BatchBounds(posts, size);
    var b := |Batches(posts, size)|;
    if b > 0 {
      assert (b - 1) * size + size == b * size;
      assert b * size + size == (b + 1) * size;
    }
    DivUnique(|posts| + size - 1, size, b);
  }

  /** Batch k is exactly `posts.slice(k * size, k * size + size)`. */
  lemma {:induction false} BatchIsSlice<T>(posts: seq<T>, size: nat, k: nat)
    requires size > 0
    requires k < |Batches(posts, size)|
    ensures k * size < |posts|
    ensures Batches(posts, size)[k] == posts[k * size..Min(k * size + size, |posts|)]
    decreases k
  {
    if k > 0 {
      BatchIsSlice(posts[size..], size, k - 1);
      var lo := (k - 1) * size;
      var hi := Min(lo + size, |posts| - size);
      assert lo + size == k * size;
      assert hi + size == Min(k * size + size, |posts|);
      assert posts[size..][lo..hi] == posts[lo + size..hi + size];
    }
  }

  /** The batches still to come once the loop offset has reached `j`: the slice
      at `j`, then the batches after `j + size`. */
  lemma BatchesAt<T>(posts: seq<T>, size: nat, j: nat)
    requires size > 0 && j < |posts|
    ensures Batches(posts[j..], size)
         == [posts[j..Min(j + size, |posts|)]] + Batches(posts[Min(j + size, |posts|)..], size)
  {
    if |posts| - j > size {
      assert posts[j..][..size] == posts[j..j + size];
      assert posts[j..][size..] == posts[j + size..];
    } else {
      assert posts[j..] == posts[j..|posts|];
    }
  }

  /** One account, four posts, batches of three: the first three posts are
      scheduled, one cooldown follows, then the fourth post, and nothing after. */
  lemma OneAccountFourPosts(cookies: CookieSet, p0: Publish.Post, p1: Publish.Post, p2: Publish.Post, p3: Publish.Post, interval: int)
    ensures AccountsFrom([cookies], [p0, p1, p2, p3], 3, interval, 0)
         == [Schedule(0, p0, 0, cookies), Schedule(0, p1, 0, cookies), Schedule(0, p2, 0, cookies),
             Cooldown(interval), Schedule(0, p3, 0, cookies)]
  {
    var posts := [p0, p1, p2, p3];
    assert posts[..3] == [p0, p1, p2] && posts[3..] == [p3];
    assert Batches(posts, 3) == [[p0, p1, p2], [p3]];
    assert AccountActions(0, cookies, [[p3]], interval) == ScheduleAll(0, cookies, [p3]) + [] + [];
  }

  /** Two accounts with three posts each and batches of three: six schedules
      and no cooldown at all, since each account has a single batch. */
  lemma TwoAccountsSingleBatches(c0: CookieSet, c1: CookieSet, posts: seq<Publish.Post>, interval: int)
    requires |posts| == 3
    ensures var actions := AccountsFrom([c0, c1], posts, 3, interval, 0);
      && Cooldowns(actions) == 0
      && ScheduledFor(actions, 0) == posts && ScheduledFor(actions, 1) == posts
  {
    AllAccountsScheduled([c0, c1], posts, 3, interval, 0, 0);
    AllAccountsScheduled([c0, c1], posts, 3, interval, 0, 1);
    AllAccountsCooldowns([c0, c1], posts, 3, interval, 0);
  }

  /** How many cooldowns one account with post list `posts` gets: one fewer
      than its batches, none for an empty list. */
  function AccountCooldowns(posts: seq<Publish.Post>, size: nat): nat
    requires size > 0
  {
    if posts == [] then 0 else (|posts| + size - 1) / size - 1
  }

  /** The cooldowns of accounts `i` up to (not including) `end` of `main`, each
      with its own post list. */
  function CooldownsFrom(postsForCookies: seq<seq<Publish.Post>>, size: nat, i: nat, end: nat): nat
    requires size > 0 && end <= |postsForCookies|
    decreases end - i
  {
    if i >= end then 0
    else AccountCooldowns(postsForCookies[i], size) + CooldownsFrom(postsForCookies, size, i + 1, end)
  }

  /** In `main`, every account that is reached gets exactly its own post list
      `postsForCookies[account]`, once and in order; an account at or after the
      first missing list, or outside the cookie-set list, gets nothing. So when
      `main` rejects, every account before the missing list was fully
      scheduled. */
  lemma {:induction false} MainScheduled(allCookies: seq<CookieSet>, postsForCookies: seq<seq<Publish.Post>>, size: nat, interval: int, i: nat, account: nat)
    requires size > 0 && i <= |allCookies|
    ensures ScheduledFor(MainFrom(allCookies, postsForCookies, size, interval, i).actions, account)
         == if i <= account < Min(|allCookies|, |postsForCookies|) then postsForCookies[account] else []
    decreases |allCookies| - i
  {
    if i < |allCookies| && i < |postsForCookies| {
      var head := AccountActions(i, allCookies[i], Batches(postsForCookies[i], size), interval);
      var rest := MainFrom(allCookies, postsForCookies, size, interval, i + 1).actions;
      assert MainFrom(allCookies, postsForCookies, size, interval, i).actions == head + rest;
      MainScheduled(allCookies, postsForCookies, size, interval, i + 1, account);
      CountsAppend(head, rest, account);
      AccountScheduledFor(i, allCookies[i], postsForCookies[i], size, interval, account);
    }
  }

  /** In `main`, the number of cooldowns is the sum, over the accounts reached,
      of ceil(n_a / size) - 1 for each account's own list (zero for an empty
      list). */
  lemma {:induction false} MainCooldowns(allCookies: seq<CookieSet>, postsForCookies: seq<seq<Publish.Post>>, size: nat, interval: int, i: nat)
    requires size > 0 && i <= |allCookies|
    ensures Cooldowns(MainFrom(allCookies, postsForCookies, size, interval, i).actions)
         == CooldownsFrom(postsForCookies, size, i, Min(|allCookies|, |postsForCookies|))
    decreases |allCookies| - i
  {
    if i < |allCookies| && i < |postsForCookies| {
      var head := AccountActions(i, allCookies[i], Batches(postsForCookies[i], size), interval);
      var rest := MainFrom(allCookies, postsForCookies, size, interval, i + 1).actions;
      assert MainFrom(allCookies, postsForCookies, size, interval, i).actions == head + rest;
      MainCooldowns(allCookies, postsForCookies, size, interval, i + 1);
      AccountSchedule(i, allCookies[i], postsForCookies[i], size, interval);
      CountsAppend(head, rest, 0);
    }
  }

  /** In `main`, every cooldown sits between two batches of one account (never
      first, last, or between accounts), and every schedule belongs to an
      account that was reached and carries that account's cookie set and delay 0. */
  lemma {:induction false} MainShape(allCookies: seq<CookieSet>, postsForCookies: seq<seq<Publish.Post>>, size: nat, interval: int, i: nat)
    requires size > 0 && i <= |allCookies|
    ensures var actions := MainFrom(allCookies, postsForCookies, size, interval, i).actions;
      && CooldownsBetweenBatches(actions)
      && (actions != [] ==> actions[0].Schedule? && actions[|actions| - 1].Schedule?)
      && (forall a <- actions :: a.Schedule? ==>
            && i <= a.account < Min(|allCookies|, |postsForCookies|)
            && a.cookies == allCookies[a.account] && a.delayTime == 0)
    decreases |allCookies| - i
  {
    if i < |allCookies| && i < |postsForCookies| {
      var posts := postsForCookies[i];
      var head := AccountActions(i, allCookies[i], Batches(posts, size), interval);
      var rest := MainFrom(allCookies, postsForCookies, size, interval, i + 1).actions;
      assert MainFrom(allCookies, postsForCookies, size, interval, i).actions == head + rest;
      MainShape(allCookies, postsForCookies, size, interval, i + 1);
      BatchSizes(posts, size);
      assert forall k :: 0 <= k < |Batches(posts, size)| ==> Batches(posts, size)[k] != [];
      AccountActionsShape(i, allCookies[i], Batches(posts, size), interval);
      AccountActionsFields(i, allCookies[i], Batches(posts, size), interval);
      CooldownsBetweenBatchesAppend(head, rest);
    }
  }

  /** `for (const post of batch) schedulePost(post..., 0, cookies)`. */
  function ScheduleAll(account: nat, cookies: CookieSet, batch: seq<Publish.Post>): seq<Action>
  {
    seq(|batch|, k requires 0 <= k < |batch| => Schedule(account, batch[k], 0, cookies))
  }

  /** What the batch loop does for one account, given its batches in order: a
      cooldown after every batch but the last. */
  function AccountActions(account: nat, cookies: CookieSet, batches: seq<seq<Publish.Post>>, interval: int): seq<Action>
  {
    if batches == [] then []
    else
      ScheduleAll(account, cookies, batches[0])
        + (if |batches| > 1 then [Cooldown(interval)] else [])
        + AccountActions(account, cookies, batches[1..], interval)
  }

  /** The actions of accounts `i`, `i + 1`, ... of `scheduleMultiplePostsInBatchesForMultipleCookies`,
      where every account gets the same post list. */
  function AccountsFrom(allCookies: seq<CookieSet>, posts: seq<Publish.Post>, size: nat, interval: int, i: nat): seq<Action>
    requires size > 0
    decreases |allCookies| - i
  {
    if i >= |allCookies| then []
    else
      var first := AccountActions(i, allCookies[i], Batches(posts, size), interval);
      first + AccountsFrom(allCookies, posts, size, interval, i + 1)
  }

  /** The loop of `main` from account `i` on: account i gets `postsForCookies[i]`,
      and reading the length of a missing post list throws. */
  function MainFrom(allCookies: seq<CookieSet>, postsForCookies: seq<seq<Publish.Post>>, size: nat, interval: int, i: nat): MainRun
    requires size > 0
    decreases |allCookies| - i
  {
    if i >= |allCookies| then MainRun([], Resolved)
    else if i >= |postsForCookies| then MainRun([], Rejected(UndefinedLength))
    else
      var rest := MainFrom(allCookies, postsForCookies, size, interval, i + 1);
      MainRun(AccountActions(i, allCookies[i], Batches(postsForCookies[i], size), interval) + rest.actions, rest.settled)
  }

  /** The posts scheduled for account `account`, in scheduling order. */
  function ScheduledFor(actions: seq<Action>, account: nat): seq<Publish.Post>
  {
    if actions == [] then []
    else
      var first := if actions[0].Schedule? && actions[0].account == account then [actions[0].post] else [];
      first + ScheduledFor(actions[1..], account)
  }

  /** Number of cooldowns. */
  function Cooldowns(actions: seq<Action>): nat
  {
    if actions == [] then 0
    else (if actions[0].Cooldown? then 1 else 0) + Cooldowns(actions[1..])
  }

  lemma {:induction false} CountsAppend(a: seq<Action>, b: seq<Action>, account: nat)
    ensures ScheduledFor(a + b, account) == ScheduledFor(a, account) + ScheduledFor(b, account)
    ensures Cooldowns(a + b) == Cooldowns(a) + Cooldowns(b)
    decreases |a|
  {
    if a == [] {
      assert a + b == b;
    } else {
      assert (a + b)[1..] == a[1..] + b;
      CountsAppend(a[1..], b, account);
    }
  }

  lemma {:induction false} ScheduleAllCounts(account: nat, cookies: CookieSet, batch: seq<Publish.Post>, other: nat)
    ensures ScheduledFor(ScheduleAll(account, cookies, batch), account) == batch
    ensures other != account ==> ScheduledFor(ScheduleAll(account, cookies, batch), other) == []
    ensures Cooldowns(ScheduleAll(account, cookies, batch)) == 0
    decreases |batch|
  {
    if batch != [] {
      assert ScheduleAll(account, cookies, batch)[1..] == ScheduleAll(account, cookies, batch[1..]);
      ScheduleAllCounts(account, cookies, batch[1..], other);
      assert [batch[0]] + batch[1..] == batch;
    }
  }

  /** Per account, every post of every batch is scheduled exactly once, in
      order, and there is one cooldown fewer than batches (none for an empty
      list); no post is scheduled under another account. */
  lemma {:induction false} AccountActionsCounts(account: nat, cookies: CookieSet, batches: seq<seq<Publish.Post>>, interval: int, other: nat)
    ensures ScheduledFor(AccountActions(account, cookies, batches, interval), account) == Flatten(batches)
    ensures other != account ==> ScheduledFor(AccountActions(account, cookies, batches, interval), other) == []
    ensures Cooldowns(AccountActions(account, cookies, batches, interval)) == if batches == [] then 0 else |batches| - 1
    decreases |batches|
  {
    if batches != [] {
      var head := ScheduleAll(account, cookies, batches[0]);
      var pause: seq<Action> := if |batches| > 1 then [Cooldown(interval)] else [];
      var rest := AccountActions(account, cookies, batches[1..], interval);
      AccountActionsCounts(account, cookies, batches[1..], interval, other);
      ScheduleAllCounts(account, cookies, batches[0], other);
      CountsAppend(head, pause, account);
      CountsAppend(head + pause, rest, account);
      CountsAppend(head, pause, other);
      CountsAppend(head + pause, rest, other);
      assert ScheduledFor(pause, account) == [] && ScheduledFor(pause, other) == [];
    }
  }

  /** For one account with `n` posts: every post scheduled exactly once in list
      order, and ceil(n / size) - 1 cooldowns (none after the last batch, none
      for an empty list). */
  lemma AccountSchedule(account: nat, cookies: CookieSet, posts: seq<Publish.Post>, size: nat, interval: int)
    requires size > 0
    ensures var actions := AccountActions(account, cookies, Batches(posts, size), interval);
      && ScheduledFor(actions, account) == posts
      && Cooldowns(actions) == if posts == [] then 0 else (|posts| + size - 1) / size - 1
  {
    FlattenBatches(posts, size);
    BatchBounds(posts, size);
    BatchCount(posts, size);
    AccountActionsCounts(account, cookies, Batches(posts, size), interval, account);
  }

  /** A cooldown never starts or ends a stretch of actions and sits between two
      schedules of the same account: there is no cooldown before the first
      batch, after the last batch of an account, or between two accounts. */
  ghost predicate CooldownsBetweenBatches(actions: seq<Action>)
  {
    forall p :: 0 <= p < |actions| && actions[p].Cooldown? ==>
      && 0 < p < |actions| - 1
      && actions[p - 1].Schedule? && actions[p + 1].Schedule?
      && actions[p - 1].account == actions[p + 1].account
  }

  /** The actions start and end with a schedule of `account`, or are empty. */
  ghost predicate Bracketed(actions: seq<Action>, account: nat)
  {
    actions != [] ==>
      && actions[0].Schedule? && actions[0].account == account
      && actions[|actions| - 1].Schedule? && actions[|actions| - 1].account == account
  }

  lemma CooldownsBetweenBatchesAppend(a: seq<Action>, b: seq<Action>)
    requires CooldownsBetweenBatches(a) && CooldownsBetweenBatches(b)
    requires a != [] ==> a[|a| - 1].Schedule?
    requires b != [] ==> b[0].Schedule?
    ensures CooldownsBetweenBatches(a + b)
  {
    var ab := a + b;
    forall p | 0 <= p < |ab| && ab[p].Cooldown?
      ensures 0 < p < |ab| - 1 && ab[p - 1].Schedule? && ab[p + 1].Schedule? && ab[p - 1].account == ab[p + 1].account
    {
      if p < |a| {
        assert a[p].Cooldown?;
      } else {
        assert b[p - |a|].Cooldown?;
      }
    }
  }

  /** A batch of schedules, a cooldown, and the schedules of the same account
      that follow keep every cooldown between two schedules of that account. */
  lemma CooldownJoin(head: seq<Action>, interval: int, rest: seq<Action>, account: nat)
    requires head != [] && forall q :: 0 <= q < |head| ==> head[q].Schedule? && head[q].account == account
    requires rest != [] && Bracketed(rest, account) && CooldownsBetweenBatches(rest)
    ensures CooldownsBetweenBatches(head + [Cooldown(interval)] + rest)
  {
    var whole := head + [Cooldown(interval)] + rest;
    assert forall q :: 0 <= q < |head| ==> whole[q] == head[q];
    assert forall q :: 0 <= q < |head| ==> whole[q].Schedule? && whole[q].account == account;
    forall p | 0 <= p < |whole| && whole[p].Cooldown?
      ensures 0 < p < |whole| - 1 && whole[p - 1].Schedule? && whole[p + 1].Schedule? && whole[p - 1].account == whole[p + 1].account
    {
      if p > |head| {
        var q := p - |head| - 1;
        assert whole[p] == rest[q];
        assert whole[p - 1] == rest[q - 1] && whole[p + 1] == rest[q + 1];
      } else {
        assert whole[p + 1] == rest[0];
      }
    }
  }

  lemma {:induction false} AccountActionsShape(account: nat, cookies: CookieSet, batches: seq<seq<Publish.Post>>, interval: int)
    requires forall k :: 0 <= k < |batches| ==> batches[k] != []
    ensures CooldownsBetweenBatches(AccountActions(account, cookies, batches, interval))
    ensures Bracketed(AccountActions(account, cookies, batches, interval), account)
    decreases |batches|
  {
    if batches != [] {
      var head := ScheduleAll(account, cookies, batches[0]);
      var rest := AccountActions(account, cookies, batches[1..], interval);
      AccountActionsShape(account, cookies, batches[1..], interval);
      assert batches[0] != [];
      if |batches| > 1 {
        assert batches[1] != [];
        assert rest != [];
        CooldownJoin(head, interval, rest, account);
      } else {
        assert rest == [];
        assert AccountActions(account, cookies, batches, interval) == head + [] + [];
      }
    }
  }

  /** The actions of account `owner` schedule its whole post list for `owner`
      and nothing for any other account. */
  lemma AccountScheduledFor(owner: nat, cookies: CookieSet, posts: seq<Publish.Post>, size: nat, interval: int, account: nat)
    requires size > 0
    ensures ScheduledFor(AccountActions(owner, cookies, Batches(posts, size), interval), account)
         == if account == owner then posts else []
  {
    AccountActionsCounts(owner, cookies, Batches(posts, size), interval, account);
    FlattenBatches(posts, size);
  }

  /** Over all cookie sets of `scheduleMultiplePostsInBatchesForMultipleCookies`:
      each account gets the full post list scheduled exactly once, in order,
      and no account outside the list gets anything. */
  lemma {:induction false} AllAccountsScheduled(allCookies: seq<CookieSet>, posts: seq<Publish.Post>, size: nat, interval: int, i: nat, account: nat)
    requires size > 0 && i <= |allCookies|
    ensures ScheduledFor(AccountsFrom(allCookies, posts, size, interval, i), account)
         == if i <= account < |allCookies| then posts else []
    decreases |allCookies| - i
  {
    if i < |allCookies| {
      var head := AccountActions(i, allCookies[i], Batches(posts, size), interval);
      var rest := AccountsFrom(allCookies, posts, size, interval, i + 1);
      assert AccountsFrom(allCookies, posts, size, interval, i) == head + rest;
      AllAccountsScheduled(allCookies, posts, size, interval, i + 1, account);
      CountsAppend(head, rest, account);
      AccountScheduledFor(i, allCookies[i], posts, size, interval, account);
    }
  }

  /** The total number of cooldowns is the number of cookie sets times
      ceil(n / size) - 1. */
  lemma {:induction false} AllAccountsCooldowns(allCookies: seq<CookieSet>, posts: seq<Publish.Post>, size: nat, interval: int, i: nat)
    requires size > 0 && i <= |allCookies|
    ensures Cooldowns(AccountsFrom(allCookies, posts, size, interval, i))
         == (|allCookies| - i) * (if posts == [] then 0 else (|posts| + size - 1) / size - 1)
    decreases |allCookies| - i
  {
    if i < |allCookies| {
      var head := AccountActions(i, allCookies[i], Batches(posts, size), interval);
      var rest := AccountsFrom(allCookies, posts, size, interval, i + 1);
      AllAccountsCooldowns(allCookies, posts, size, interval, i + 1);
      AccountSchedule(i, allCookies[i], posts, size, interval);
      CountsAppend(head, rest, 0);
      MulSucc(|allCookies| - (i + 1), if posts == [] then 0 else (|posts| + size - 1) / size - 1);
    }
  }

  lemma MulSucc(m: nat, per: int)
    ensures (m + 1) * per == per + m * per
  {
  }

  /** Every cooldown of the whole run sits between two batches of one account:
      none before an account's first batch, none after its last, none between
      accounts; every schedule uses its account's cookie set and delay 0. */
  lemma {:induction false} NoCooldownBetweenAccounts(allCookies: seq<CookieSet>, posts: seq<Publish.Post>, size: nat, interval: int, i: nat)
    requires size > 0 && i <= |allCookies|
    ensures var actions := AccountsFrom(allCookies, posts, size, interval, i);
      && CooldownsBetweenBatches(actions)
      && (actions != [] ==> actions[0].Schedule? && actions[|actions| - 1].Schedule?)
      && (forall a <- actions :: a.Schedule? ==> a.account < |allCookies| && a.cookies == allCookies[a.account] && a.delayTime == 0)
    decreases |allCookies| - i
  {
    if i < |allCookies| {
      var head := AccountActions(i, allCookies[i], Batches(posts, size), interval);
      var rest := AccountsFrom(allCookies, posts, size, interval, i + 1);
      NoCooldownBetweenAccounts(allCookies, posts, size, interval, i + 1);
      BatchSizes(posts, size);
      assert forall k :: 0 <= k < |Batches(posts, size)| ==> Batches(posts, size)[k] != [];
      AccountActionsShape(i, allCookies[i], Batches(posts, size), interval);
      AccountActionsFields(i, allCookies[i], Batches(posts, size), interval);
      CooldownsBetweenBatchesAppend(head, rest);
    }
  }

  /** Every schedule action of one account uses that account's cookie set and delay 0. */
  lemma {:induction false} AccountActionsFields(account: nat, cookies: CookieSet, batches: seq<seq<Publish.Post>>, interval: int)
    ensures forall a <- AccountActions(account, cookies, batches, interval) ::
      a.Schedule? ==> a.account == account && a.cookies == cookies && a.delayTime == 0
    decreases |batches|
  {
    if batches != [] {
      AccountActionsFields(account, cookies, batches[1..], interval);
    }
  }

  lemma {:induction false} MainFromAgrees(allCookies: seq<CookieSet>, postsForCookies: seq<seq<Publish.Post>>, posts: seq<Publish.Post>, size: nat, interval: int, i: nat)
    requires size > 0 && i <= |allCookies|
    ensures var run := MainFrom(allCookies, postsForCookies, size, interval, i);
      && (run.settled == Resolved <==> i == |allCookies| || |postsForCookies| >= |allCookies|)
      && (run.settled.Rejected? ==> run.settled.error == UndefinedLength)
      && ((|postsForCookies| >= |allCookies| && forall k :: i <= k < |allCookies| ==> postsForCookies[k] == posts)
            ==> run.actions == AccountsFrom(allCookies, posts, size, interval, i))
    decreases |allCookies| - i
  {
    if i < |allCookies| && i < |postsForCookies| {
      MainFromAgrees(allCookies, postsForCookies, posts, size, interval, i + 1);
    }
  }

  /** `main` runs the scheduler's loop with a post list per account. It rejects,
      with the TypeError of reading `.length` of `undefined`, exactly when there
      are fewer post lists than cookie sets; with one list per account, all
      equal to `posts`, it does exactly what the scheduler function does. */
  lemma MainAgreesWithScheduler(allCookies: seq<CookieSet>, postsForCookies: seq<seq<Publish.Post>>, posts: seq<Publish.Post>, size: nat, interval: int)
    requires size > 0
    ensures var run := MainFrom(allCookies, postsForCookies, size, interval, 0);
      && (run.settled == Resolved <==> allCookies == [] || |postsForCookies| >= |allCookies|)
      && (run.settled.Rejected? ==> run.settled.error == UndefinedLength)
      && ((|postsForCookies| >= |allCookies| && forall k :: 0 <= k < |allCookies| ==> postsForCookies[k] == posts)
            ==> run.actions == AccountsFrom(allCookies, posts, size, interval, 0))
  {
    MainFromAgrees(allCookies, postsForCookies, posts, size, interval, 0);
  }

  /** `for (const post of batch) schedulePost(post.content, post.secondContent, post.imagePath, 0, cookies)`. */
  method ScheduleBatch(account: nat, cookies: CookieSet, batch: seq<Publish.Post>) returns (actions: seq<Action>)
    ensures actions == ScheduleAll(account, cookies, batch)
  {
    actions := [];
    var k := 0;
    while k < |batch|
      invariant 0 <= k <= |batch|
      invariant actions == ScheduleAll(account, cookies, batch[..k])
    {
      actions := actions + [Schedule(account, batch[k], 0, cookies)];
      k := k + 1;
    }
    assert batch[..k] == batch;
  }

  /** The account loop has produced `actions` and has reached offset `j`: the
      batches from `j` on complete the account's actions. */
  ghost predicate AccountLoopAt(account: nat, cookies: CookieSet, posts: seq<Publish.Post>, size: nat, interval: int, j: nat, actions: seq<Action>)
    requires size > 0
  {
    actions + AccountActions(account, cookies, Batches(posts[Min(j, |posts|)..], size), interval)
      == AccountActions(account, cookies, Batches(posts, size), interval)
  }

  /** One iteration of the account loop: schedule the slice at `j`, then cool
      down exactly when `j + size < |posts|`, that is when another batch follows. */
  lemma BatchStep(account: nat, cookies: CookieSet, posts: seq<Publish.Post>, size: nat, interval: int, j: nat, actions: seq<Action>, scheduled: seq<Action>)
    requires size > 0 && j < |posts|
    requires AccountLoopAt(account, cookies, posts, size, interval, j, actions)
    requires scheduled == ScheduleAll(account, cookies, posts[j..Min(j + size, |posts|)])
    ensures AccountLoopAt(account, cookies, posts, size, interval, j + size,
      actions + scheduled + (if j + size < |posts| then [Cooldown(interval)] else []))
  {
    var next := Min(j + size, |posts|);
    var later := Batches(posts[next..], size);
    var whole := Batches(posts[j..], size);
    BatchesAt(posts, size, j);
    assert whole[0] == posts[j..next] && whole[1..] == later;
    assert later != [] <==> j + size < |posts|;
    var pause: seq<Action> := if j + size < |posts| then [Cooldown(interval)] else [];
    var rest := AccountActions(account, cookies, later, interval);
    assert AccountActions(account, cookies, whole, interval) == scheduled + pause + rest;
    assert Min(j, |posts|) == j;
    assert actions + (scheduled + pause + rest) == actions + scheduled + pause + rest;
  }

  /** One account's batch loop (`for (let j = 0; j < posts.length; j += batchSize)`):
      slice, schedule the slice, and wait only if `j + batchSize < posts.length`. */
  method ScheduleAccount(account: nat, cookies: CookieSet, posts: seq<Publish.Post>, batchSize: nat, interval: int)
    returns (actions: seq<Action>)
    requires batchSize > 0
    ensures actions == AccountActions(account, cookies, Batches(posts, batchSize), interval)
  {
    actions := [];
    var j := 0;
    while j < |posts|
      invariant AccountLoopAt(account, cookies, posts, batchSize, interval, j, actions)
      decreases |posts| - j
    {
      var batch := posts[j..Min(j + batchSize, |posts|)];
      var scheduled := ScheduleBatch(account, cookies, batch);
      BatchStep(account, cookies, posts, batchSize, interval, j, actions, scheduled);
      actions := actions + scheduled;
      if j + batchSize < |posts| {
        actions := actions + [Cooldown(interval)];
      } else {
        assert actions + [] == actions;
      }
      j := j + batchSize;
    }
    assert posts[Min(j, |posts|)..] == [];
    assert actions + [] == actions;
  }

  /** `scheduleMultiplePostsInBatchesForMultipleCookies(posts, batchSize, interval, allCookies)`:
      every cookie set in order, each with the same post list, no pause
      between accounts. */
  method ScheduleMultiplePostsInBatches(posts: seq<Publish.Post>, batchSize: nat, interval: int, allCookies: seq<CookieSet>)
    returns (actions: seq<Action>)
    requires batchSize > 0
    ensures actions == AccountsFrom(allCookies, posts, batchSize, interval, 0)
  {
    actions := [];
    var i := 0;
    while i < |allCookies|
      invariant 0 <= i <= |allCookies|
      invariant actions + AccountsFrom(allCookies, posts, batchSize, interval, i) == AccountsFrom(allCookies, posts, batchSize, interval, 0)
    {
      var accountActions := ScheduleAccount(i, allCookies[i], posts, batchSize, interval);
      actions := actions + accountActions;
      i := i + 1;
    }
  }

  /** The loop of `main`: cookie set i is used with `postsForCookies[i]`. */
  method MainLoop(allCookies: seq<CookieSet>, postsForCookies: seq<seq<Publish.Post>>, batchSize: nat, interval: int)
    returns (actions: seq<Action>, settled: Settled)
    requires batchSize > 0
    ensures MainRun(actions, settled) == MainFrom(allCookies, postsForCookies, batchSize, interval, 0)
  {
    actions := [];
    var i := 0;
    while i < |allCookies|
      invariant 0 <= i <= |allCookies|
      invariant var rest := MainFrom(allCookies, postsForCookies, batchSize, interval, i);
        MainFrom(allCookies, postsForCookies, batchSize, interval, 0) == MainRun(actions + rest.actions, rest.settled)
    {
      if i >= |postsForCookies| {
        assert actions + [] == actions;
        return actions, Rejected(UndefinedLength);
      }
      var accountActions := ScheduleAccount(i, allCookies[i], postsForCookies[i], batchSize, interval);
      actions := actions + accountActions;
      i := i + 1;
    }
    assert actions + [] == actions;
    settled := Resolved;
  }
}
