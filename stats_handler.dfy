/** The ranking and total computations of the user and livestream statistics
    handlers. The rows the handlers fetch (users, livestream ids, per-id
    reaction counts and tip sums, the comments and viewer counts of a user's
    livestreams) are parameters. */
module StatsHandler {
  import opened Ranking

  datatype LivestreamRankingEntry = LivestreamRankingEntry(livestreamId: int, score: int)

  datatype UserRankingEntry = UserRankingEntry(username: string, score: int)

  /** A row of the users table, as far as the ranking reads it. */
  datatype UserModel = UserModel(id: int, name: string)

  /** What the user statistics handler fetches about one of the user's
      livestreams: the tip of each of its comments, and its viewer count. */
  datatype LivestreamActivity = LivestreamActivity(commentTips: seq<int>, viewerCount: int)

  /** `LivestreamRanking.Less`: by score, then by livestream id. */
  predicate LivestreamLess(a: LivestreamRankingEntry, b: LivestreamRankingEntry) {
    if a.score == b.score then a.livestreamId < b.livestreamId else a.score < b.score
  }

  /** Go's `<` on strings: lexicographic, a proper prefix first. Comparing code
      points orders strings as comparing their UTF-8 bytes does. */
  predicate StringLess(a: string, b: string) {
    if |a| == 0 then |b| > 0
    else if |b| == 0 then false
    else if a[0] != b[0] then a[0] < b[0]
    else StringLess(a[1..], b[1..])
  }

  /** `UserRanking.Less`: by score, then by username. */
  predicate UserLess(a: UserRankingEntry, b: UserRankingEntry) {
    if a.score == b.score then StringLess(a.username, b.username) else a.score < b.score
  }

  lemma {:induction false} StringLessIrreflexive(a: string)
    ensures !StringLess(a, a)
  {
    if |a| > 0 {
      StringLessIrreflexive(a[1..]);
    }
  }

  lemma {:induction false} StringLessTransitive(a: string, b: string, c: string)
    requires StringLess(a, b) && StringLess(b, c)
    ensures StringLess(a, c)
  {
    if |a| > 0 && a[0] == b[0] && b[0] == c[0] {
      StringLessTransitive(a[1..], b[1..], c[1..]);
    }
  }

  lemma {:induction false} StringLessTotal(a: string, b: string)
    requires a != b
    ensures StringLess(a, b) || StringLess(b, a)
  {
    if |a| > 0 && |b| > 0 && a[0] == b[0] {
      assert a == [a[0]] + a[1..] && b == [b[0]] + b[1..];
      StringLessTotal(a[1..], b[1..]);
    }
  }

  lemma LivestreamLessIsStrictTotalOrder()
    ensures StrictTotalOrder(LivestreamLess)
  {
  }

  lemma UserLessIsStrictTotalOrder()
    ensures StrictTotalOrder(UserLess)
  {
    forall a: UserRankingEntry ensures !UserLess(a, a) {
      StringLessIrreflexive(a.username);
    }
    forall a: UserRankingEntry, b: UserRankingEntry, c: UserRankingEntry | UserLess(a, b) && UserLess(b, c)
      ensures UserLess(a, c)
    {
      if a.score == b.score == c.score {
        StringLessTransitive(a.username, b.username, c.username);
      }
    }
    forall a: UserRankingEntry, b: UserRankingEntry | a != b
      ensures UserLess(a, b) || UserLess(b, a)
    {
      if a.score == b.score {
        StringLessTotal(a.username, b.username);
      }
    }
  }

  /** A Go map read: a missing key reads as zero. */
  function ValueOrZero(m: map<int, int>, key: int): int {
    if key in m then m[key] else 0
  }

  /** The ranking of the livestream statistics handler before sorting. */
  ghost function LivestreamRankingOf(livestreamIds: seq<int>, reactions: map<int, int>, tips: map<int, int>): seq<LivestreamRankingEntry> {
    seq(|livestreamIds|, i requires 0 <= i < |livestreamIds| =>
      LivestreamRankingEntry(livestreamIds[i], ValueOrZero(reactions, livestreamIds[i]) + ValueOrZero(tips, livestreamIds[i])))
  }

  /** The ranking of the user statistics handler before sorting. */
  ghost function UserRankingOf(users: seq<UserModel>, reactions: map<int, int>, tips: map<int, int>): seq<UserRankingEntry> {
    seq(|users|, i requires 0 <= i < |users| =>
      UserRankingEntry(users[i].name, ValueOrZero(reactions, users[i].id) + ValueOrZero(tips, users[i].id)))
  }

  method BuildLivestreamRanking(livestreamIds: seq<int>, reactions: map<int, int>, tips: map<int, int>)
    returns (ranking: seq<LivestreamRankingEntry>)
    ensures |ranking| == |livestreamIds|
    ensures forall i :: 0 <= i < |ranking| ==>
      && ranking[i].livestreamId == livestreamIds[i]
      && ranking[i].score == ValueOrZero(reactions, livestreamIds[i]) + ValueOrZero(tips, livestreamIds[i])
    ensures ranking == LivestreamRankingOf(livestreamIds, reactions, tips)
  {
    ranking := [];
    for i := 0 to |livestreamIds|
      invariant ranking == LivestreamRankingOf(livestreamIds[..i], reactions, tips)
    {
      var id := livestreamIds[i];
      var score := ValueOrZero(reactions, id) + ValueOrZero(tips, id);
      ranking := ranking + [LivestreamRankingEntry(id, score)];
    }
    assert livestreamIds[..|livestreamIds|] == livestreamIds;
  }

  method BuildUserRanking(users: seq<UserModel>, reactions: map<int, int>, tips: map<int, int>)
    returns (ranking: seq<UserRankingEntry>)
    ensures |ranking| == |users|
    ensures forall i :: 0 <= i < |ranking| ==>
      && ranking[i].username == users[i].name
      && ranking[i].score == ValueOrZero(reactions, users[i].id) + ValueOrZero(tips, users[i].id)
    ensures ranking == UserRankingOf(users, reactions, tips)
  {
    ranking := [];
    for i := 0 to |users|
      invariant ranking == UserRankingOf(users[..i], reactions, tips)
    {
      var score := ValueOrZero(reactions, users[i].id) + ValueOrZero(tips, users[i].id);
      ranking := ranking + [UserRankingEntry(users[i].name, score)];
    }
    assert users[..|users|] == users;
  }

  /** The rank of the livestream statistics handler: one plus the number of
      livestreams whose entry is strictly greater, or one past the end when
      the livestream is not in the list. */
  method LivestreamRank(livestreamIds: seq<int>, reactions: map<int, int>, tips: map<int, int>, livestreamId: int)
    returns (rank: int)
    ensures livestreamId in livestreamIds ==>
      var target := LivestreamRankingEntry(livestreamId, ValueOrZero(reactions, livestreamId) + ValueOrZero(tips, livestreamId));
      rank == 1 + CountGreater(LivestreamLess, LivestreamRankingOf(livestreamIds, reactions, tips), target)
    ensures livestreamId in livestreamIds ==> 1 <= rank <= |livestreamIds|
    ensures livestreamId !in livestreamIds ==> rank == |livestreamIds| + 1
  {
    var ranking := BuildLivestreamRanking(livestreamIds, reactions, tips);
    var sorted := SortBy(LivestreamLess, ranking);
    var isTarget := (e: LivestreamRankingEntry) => e.livestreamId == livestreamId;
    rank := ComputeRank(sorted, isTarget);
    assert rank == RankAfterSort(LivestreamLess, ranking, isTarget);
    if livestreamId in livestreamIds {
      LivestreamRankPresent(livestreamIds, reactions, tips, livestreamId, isTarget);
    } else {
      AbsentTargetRank(LivestreamLess, ranking, isTarget);
    }
  }

  /** A listed livestream is the only target entry, since the ranking holds
      one entry per id, so its rank is one plus the entries above it. */
  lemma LivestreamRankPresent(livestreamIds: seq<int>, reactions: map<int, int>, tips: map<int, int>, livestreamId: int,
                              isTarget: LivestreamRankingEntry -> bool)
    requires livestreamId in livestreamIds
    requires forall e :: isTarget(e) <==> e.livestreamId == livestreamId
    ensures var target := LivestreamRankingEntry(livestreamId, ValueOrZero(reactions, livestreamId) + ValueOrZero(tips, livestreamId));
      RankAfterSort(LivestreamLess, LivestreamRankingOf(livestreamIds, reactions, tips), isTarget)
        == 1 + CountGreater(LivestreamLess, LivestreamRankingOf(livestreamIds, reactions, tips), target)
    ensures 1 <= RankAfterSort(LivestreamLess, LivestreamRankingOf(livestreamIds, reactions, tips), isTarget) <= |livestreamIds|
  {
    var ranking := LivestreamRankingOf(livestreamIds, reactions, tips);
    var k :| 0 <= k < |livestreamIds| && livestreamIds[k] == livestreamId;
    var target := ranking[k];
    PresentTargetRank(LivestreamLess, ranking, isTarget, k);
    assert RankAfterSort(LivestreamLess, ranking, isTarget) == 1 + CountGreater(LivestreamLess, ranking, target) by {
      forall i | 0 <= i < |ranking| && isTarget(ranking[i]) ensures ranking[i] == target {
      }
      LivestreamLessIsStrictTotalOrder();
      SortedRank(LivestreamLess, ranking, isTarget, target);
    }
  }

  ghost predicate UniqueNames(users: seq<UserModel>) {
    forall i, j :: 0 <= i < |users| && 0 <= j < |users| && users[i].name == users[j].name ==> i == j
  }

  /** With unique user names, the user named `username` is the only target
      entry, so the rank read off the sorted ranking is one plus the number
      of entries strictly greater than that user's. */
  lemma UniqueNameRank(users: seq<UserModel>, reactions: map<int, int>, tips: map<int, int>, username: string,
                       ranking: seq<UserRankingEntry>, isTarget: UserRankingEntry -> bool, k: int)
    requires UniqueNames(users)
    requires 0 <= k < |users| && users[k].name == username
    requires ranking == UserRankingOf(users, reactions, tips)
    requires forall e :: isTarget(e) <==> e.username == username
    ensures forall i :: 0 <= i < |users| && users[i].name == username ==> i == k
    ensures RankAfterSort(UserLess, ranking, isTarget) == 1 + CountGreater(UserLess, ranking, ranking[k])
  {
    forall i | 0 <= i < |ranking| && isTarget(ranking[i]) ensures ranking[i] == ranking[k] {
      assert users[i].name == users[k].name;
    }
    assert RankAfterSort(UserLess, ranking, isTarget) == 1 + CountGreater(UserLess, ranking, ranking[k]) by {
      UserLessIsStrictTotalOrder();
      SortedRank(UserLess, ranking, isTarget, ranking[k]);
    }
  }

  /** A user who is in the list gets a rank between 1 and n; with unique
      names it is one plus the number of entries above that user's. */
  lemma UserRankPresent(users: seq<UserModel>, reactions: map<int, int>, tips: map<int, int>, username: string,
                        isTarget: UserRankingEntry -> bool, k: int)
    requires 0 <= k < |users| && users[k].name == username
    requires forall e :: isTarget(e) <==> e.username == username
    ensures 1 <= RankAfterSort(UserLess, UserRankingOf(users, reactions, tips), isTarget) <= |users|
    ensures forall i :: 0 <= i < |users| && users[i].name == username && UniqueNames(users) ==>
      var target := UserRankingEntry(username, ValueOrZero(reactions, users[i].id) + ValueOrZero(tips, users[i].id));
      RankAfterSort(UserLess, UserRankingOf(users, reactions, tips), isTarget) == 1 + CountGreater(UserLess, UserRankingOf(users, reactions, tips), target)
  {
    var ranking := UserRankingOf(users, reactions, tips);
    PresentTargetRank(UserLess, ranking, isTarget, k);
    if UniqueNames(users) {
      UniqueNameRank(users, reactions, tips, username, ranking, isTarget, k);
      var rank := RankAfterSort(UserLess, ranking, isTarget);
      var target := UserRankingEntry(username, ValueOrZero(reactions, users[k].id) + ValueOrZero(tips, users[k].id));
      assert ranking[k] == target;
      assert rank == 1 + CountGreater(UserLess, ranking, target);
      forall i | 0 <= i < |users| && users[i].name == username
        ensures UserRankingEntry(username, ValueOrZero(reactions, users[i].id) + ValueOrZero(tips, users[i].id)) == target
      {
        assert i == k;
      }
    }
  }

  /** The rank of the user statistics handler. With unique user names it is
      one plus the number of users whose entry is strictly greater. */
  method UserRank(users: seq<UserModel>, reactions: map<int, int>, tips: map<int, int>, username: string)
    returns (rank: int)
    ensures forall i :: 0 <= i < |users| && users[i].name == username && UniqueNames(users) ==>
      var target := UserRankingEntry(username, ValueOrZero(reactions, users[i].id) + ValueOrZero(tips, users[i].id));
      rank == 1 + CountGreater(UserLess, UserRankingOf(users, reactions, tips), target)
    ensures (exists i :: 0 <= i < |users| && users[i].name == username) ==> 1 <= rank <= |users|
    ensures (forall i :: 0 <= i < |users| ==> users[i].name != username) ==> rank == |users| + 1
  {
    var ranking := BuildUserRanking(users, reactions, tips);
    var sorted := SortBy(UserLess, ranking);
    var isTarget := (e: UserRankingEntry) => e.username == username;
    rank := ComputeRank(sorted, isTarget);
    assert rank == RankAfterSort(UserLess, ranking, isTarget);
    if exists i :: 0 <= i < |users| && users[i].name == username {
      var k :| 0 <= k < |users| && users[k].name == username;
      UserRankPresent(users, reactions, tips, username, isTarget, k);
    } else {
      AbsentTargetRank(UserLess, ranking, isTarget);
    }
  }

  /** Between two livestreams with equal scores, the one with the larger id
      has fewer entries above it, so it gets the better (smaller) rank. */
  lemma LivestreamTieGoesToLargerId(ranking: seq<LivestreamRankingEntry>, a: LivestreamRankingEntry, b: LivestreamRankingEntry)
    requires a.score == b.score && a.livestreamId < b.livestreamId
    requires b in ranking
    ensures CountGreater(LivestreamLess, ranking, b) < CountGreater(LivestreamLess, ranking, a)
  {
    LivestreamLessIsStrictTotalOrder();
    GreaterRanksBetter(LivestreamLess, ranking, a, b);
  }

  /** Between two users with equal scores, the one whose name sorts later
      gets the better (smaller) rank. */
  lemma UserTieGoesToLaterName(ranking: seq<UserRankingEntry>, a: UserRankingEntry, b: UserRankingEntry)
    requires a.score == b.score && StringLess(a.username, b.username)
    requires b in ranking
    ensures CountGreater(UserLess, ranking, b) < CountGreater(UserLess, ranking, a)
  {
    UserLessIsStrictTotalOrder();
    GreaterRanksBetter(UserLess, ranking, a, b);
  }

  function Sum(s: seq<int>): int {
    if s == [] then 0 else Sum(s[..|s| - 1]) + s[|s| - 1]
  }

  lemma {:induction false} SumAppend(a: seq<int>, b: seq<int>)
    ensures Sum(a + b) == Sum(a) + Sum(b)
  {
    if b == [] {
      assert a + b == a;
    } else {
      assert (a + b)[..|a + b| - 1] == a + b[..|b| - 1];
      SumAppend(a, b[..|b| - 1]);
    }
  }

  /** Every comment tip across the livestreams, livestream by livestream. */
  function AllCommentTips(livestreams: seq<LivestreamActivity>): seq<int> {
    if livestreams == [] then []
    else AllCommentTips(livestreams[..|livestreams| - 1]) + livestreams[|livestreams| - 1].commentTips
  }

  function ViewerCounts(livestreams: seq<LivestreamActivity>): (r: seq<int>)
    ensures |r| == |livestreams|
    ensures forall i :: 0 <= i < |r| ==> r[i] == livestreams[i].viewerCount
  {
    if livestreams == [] then []
    else ViewerCounts(livestreams[..|livestreams| - 1]) + [livestreams[|livestreams| - 1].viewerCount]
  }

  /** The inner loop over one livestream's comments: one more comment and
      its tip for each. */
  method AddCommentTips(totalLivecomments: int, totalTip: int, tips: seq<int>)
    returns (comments: int, tip: int)
    ensures comments == totalLivecomments + |tips|
    ensures tip == totalTip + Sum(tips)
  {
    comments, tip := totalLivecomments, totalTip;
    for j := 0 to |tips|
      invariant comments == totalLivecomments + j
      invariant tip == totalTip + Sum(tips[..j])
    {
      assert tips[..j + 1][..j] == tips[..j];
      tip := tip + tips[j];
      comments := comments + 1;
    }
    assert tips[..|tips|] == tips;
  }

  lemma AllCommentTipsStep(livestreams: seq<LivestreamActivity>, i: int)
    requires 0 <= i < |livestreams|
    ensures AllCommentTips(livestreams[..i + 1]) == AllCommentTips(livestreams[..i]) + livestreams[i].commentTips
  {
    assert livestreams[..i + 1][..i] == livestreams[..i];
  }

  lemma ViewerCountsStep(livestreams: seq<LivestreamActivity>, i: int)
    requires 0 <= i < |livestreams|
    ensures Sum(ViewerCounts(livestreams[..i + 1])) == Sum(ViewerCounts(livestreams[..i])) + livestreams[i].viewerCount
  {
    assert livestreams[..i + 1][..i] == livestreams[..i];
  }

  /** The first loop of the totals: over the user's livestreams, the number
      of comments and the sum of their tips. */
  method CommentTotals(livestreams: seq<LivestreamActivity>)
    returns (totalLivecomments: int, totalTip: int)
    ensures totalLivecomments == |AllCommentTips(livestreams)|
    ensures totalTip == Sum(AllCommentTips(livestreams))
  {
    totalLivecomments, totalTip := 0, 0;
    for i := 0 to |livestreams|
      invariant totalLivecomments == |AllCommentTips(livestreams[..i])|
      invariant totalTip == Sum(AllCommentTips(livestreams[..i]))
    {
      totalLivecomments, totalTip := AddCommentTips(totalLivecomments, totalTip, livestreams[i].commentTips);
      AllCommentTipsStep(livestreams, i);
      SumAppend(AllCommentTips(livestreams[..i]), livestreams[i].commentTips);
    }
    assert livestreams[..|livestreams|] == livestreams;
  }

  /** The second loop of the totals: the sum of the viewer counts. */
  method ViewerTotal(livestreams: seq<LivestreamActivity>) returns (viewersCount: int)
    ensures viewersCount == Sum(ViewerCounts(livestreams))
  {
    viewersCount := 0;
    for i := 0 to |livestreams|
      invariant viewersCount == Sum(ViewerCounts(livestreams[..i]))
    {
      ViewerCountsStep(livestreams, i);
      viewersCount := viewersCount + livestreams[i].viewerCount;
    }
    assert livestreams[..|livestreams|] == livestreams;
  }

  /** The comment, tip and viewer totals of the user statistics handler. */
  method UserTotals(livestreams: seq<LivestreamActivity>)
    returns (totalLivecomments: int, totalTip: int, viewersCount: int)
    ensures totalLivecomments == |AllCommentTips(livestreams)|
    ensures totalTip == Sum(AllCommentTips(livestreams))
    ensures viewersCount == Sum(ViewerCounts(livestreams))
  {
    totalLivecomments, totalTip := CommentTotals(livestreams);
    viewersCount := ViewerTotal(livestreams);
  }

  lemma {:induction false} AllCommentTipsAppend(a: seq<LivestreamActivity>, b: seq<LivestreamActivity>)
    ensures AllCommentTips(a + b) == AllCommentTips(a) + AllCommentTips(b)
  {
    if b == [] {
      assert a + b == a;
    } else {
      var b', last := b[..|b| - 1], b[|b| - 1];
      var ab := a + b;
      assert ab[..|ab| - 1] == a + b' && ab[|ab| - 1] == last;
      assert AllCommentTips(ab) == AllCommentTips(a + b') + last.commentTips;
      AllCommentTipsAppend(a, b');
    }
  }

  lemma ViewerCountsAppend(a: seq<LivestreamActivity>, b: seq<LivestreamActivity>)
    ensures ViewerCounts(a + b) == ViewerCounts(a) + ViewerCounts(b)
  {
    var joined, parts := ViewerCounts(a + b), ViewerCounts(a) + ViewerCounts(b);
    forall i | 0 <= i < |joined| ensures joined[i] == parts[i] {
      if i < |a| {
        assert (a + b)[i] == a[i];
      } else {
        assert (a + b)[i] == b[i - |a|];
      }
    }
  }

  /** The totals add up livestream by livestream: the totals of two groups of
      livestreams are the sums of the groups' totals. */
  lemma TotalsAreAdditive(a: seq<LivestreamActivity>, b: seq<LivestreamActivity>)
    ensures |AllCommentTips(a + b)| == |AllCommentTips(a)| + |AllCommentTips(b)|
    ensures Sum(AllCommentTips(a + b)) == Sum(AllCommentTips(a)) + Sum(AllCommentTips(b))
    ensures Sum(ViewerCounts(a + b)) == Sum(ViewerCounts(a)) + Sum(ViewerCounts(b))
  {
    AllCommentTipsAppend(a, b);
    SumAppend(AllCommentTips(a), AllCommentTips(b));
    ViewerCountsAppend(a, b);
    SumAppend(ViewerCounts(a), ViewerCounts(b));
  }
}
