/**
 * The badge engine `calculate_badges` of src/xueyuanzuoye/stu_homework.py.
 * The source is a run of 41 independent `if` tests, each appending one
 * badge, followed by a sort on (level rank, name). Here the 41 tests are a
 * catalogue of rules in source order, the method walks the catalogue
 * appending the badges whose test holds, and then sorts them by insertion.
 *
 * Averages, the two-part averages of 进步之星 and the variance of 稳定发挥 are
 * exact reals; their integer reformulations are proved below.
 */
module Badges {
  import opened Wrappers
  import opened PyStr

  /** Badge levels; `Rank` is `level_order`. */
  datatype Level = Legendary | Epic | Rare | Common | Special

  function Rank(l: Level): (r: nat)
    ensures r <= 4
  {
    match l
    case Legendary => 0
    case Epic => 1
    case Rare => 2
    case Common => 3
    case Special => 4
  }

  /** One badge as the API returns it. */
  datatype Badge = Badge(icon: string, name: string, desc: string, level: Level)

  /** Exactly five phase scores. */
  type Five = s: seq<int> | |s| == 5 witness [0, 0, 0, 0, 0]

  /** The inputs: the five scores (after the length check), the commit count
      and the push hour in UTC+8 (`None` when there is no parsable push time). */
  datatype Facts = Facts(scores: Five, commits: int, hour: Option<int>)

  /** `scores` is replaced by five zeros unless it has exactly five entries. */
  function MakeFacts(scores: seq<int>, commits: int, hour: Option<int>): (f: Facts)
    ensures |scores| == 5 ==> f.scores == scores
    ensures |scores| != 5 ==> f.scores == [0, 0, 0, 0, 0]
    ensures f.commits == commits && f.hour == hour
  {
    Facts(if |scores| == 5 then scores else [0, 0, 0, 0, 0], commits, hour)
  }

  /** The tests of the catalogue. */
  datatype Test =
    | StagesDone(n: nat)                               // at least n scores > 0
    | AvgAtLeast(k: int)                               // avg_score >= k
    | FirstAtLeast(k: int)                             // scores[0] >= k
    | CommitsAtLeast(k: int)                           // commits_count >= k
    | HighPhases(n: nat)                               // at least n scores >= 90
    | PerfectPhases(n: nat)                            // at least n scores == 100
    | AllAtLeast(k: int)                               // every score >= k and > 0
    | Improving                                        // 进步之星
    | Sprint                                           // 冲刺王
    | Steady                                           // 稳定发挥
    | Balanced                                         // every score in [70, 90] and > 0
    | CommitsWithinAndAvg(lo: int, hi: int, k: int)    // lo <= commits_count <= hi and avg_score >= k
    | AllPerfect                                       // every score == 100
    | CommitsAndAvg(c: int, k: int)                    // commits_count >= c and avg_score >= k
    | HourIn(lo: int, hi: int)                         // lo <= local hour < hi
    | LuckyTotal                                       // total in the lucky numbers
    | HasScore(k: int)                                 // k in scores
    | Palindrome                                       // scores read the same backwards, all > 0
    | StrictlyIncreasing                               // strictly increasing, all > 0

  /** A badge description: fixed, or formatted from the perfect-score count or the total. */
  datatype Desc = Fixed(text: string) | PerfectCountDesc | TotalDesc

  datatype Rule = Rule(icon: string, name: string, desc: Desc, level: Level, test: Test)

  const LuckyNumbers: seq<int> := [222, 250, 300, 333, 350, 400, 444, 450, 500]

  function Sum(s: seq<int>): int {
    if s == [] then 0 else Sum(s[..|s| - 1]) + s[|s| - 1]
  }

  /** `sum(1 for x in s if x >= k)`. */
  function CountAtLeast(s: seq<int>, k: int): (n: nat)
    ensures n <= |s|
    ensures n == |s| <==> forall i :: 0 <= i < |s| ==> s[i] >= k
    ensures n == 0 <==> forall i :: 0 <= i < |s| ==> s[i] < k
  {
    if s == [] then 0
    else
      var p := s[..|s| - 1];
      assert forall i :: 0 <= i < |p| ==> p[i] == s[i];
      CountAtLeast(p, k) + (if s[|s| - 1] >= k then 1 else 0)
  }

  /** `sum(1 for x in s if x == k)`: the number of occurrences of `k`. */
  function CountEq(s: seq<int>, k: int): (n: nat)
    ensures n <= |s|
    ensures n == multiset(s)[k]
  {
    if s == [] then 0
    else
      assert s == s[..|s| - 1] + [s[|s| - 1]];
      CountEq(s[..|s| - 1], k) + (if s[|s| - 1] == k then 1 else 0)
  }

  predicate AllPositive(s: seq<int>) {
    forall i :: 0 <= i < |s| ==> s[i] > 0
  }

  /** `avg_score`: the total over five. */
  function Avg(s: Five): real {
    Sum(s) as real / 5.0
  }

  function Square(x: real): real { x * x }

  /** The population variance of the five scores. */
  function Variance(s: Five): real {
    var m := Avg(s);
    (Square(s[0] as real - m) + Square(s[1] as real - m) + Square(s[2] as real - m)
     + Square(s[3] as real - m) + Square(s[4] as real - m)) / 5.0
  }

  /** Whether a test holds. `std_dev < 10` is `variance < 100`, since the square root is monotone. */
  predicate Holds(t: Test, f: Facts) {
    var s := f.scores;
    match t
    case StagesDone(n) => CountAtLeast(s, 1) >= n
    case AvgAtLeast(k) => Avg(s) >= k as real
    case FirstAtLeast(k) => s[0] >= k
    case CommitsAtLeast(k) => f.commits >= k
    case HighPhases(n) => CountAtLeast(s, 90) >= n
    case PerfectPhases(n) => CountEq(s, 100) >= n
    case AllAtLeast(k) => (forall i :: 0 <= i < 5 ==> s[i] >= k) && AllPositive(s)
    case Improving =>
      AllPositive(s)
      && var first := (s[0] + s[1]) as real / 2.0;
      var last := (s[2] + s[3] + s[4]) as real / 3.0;
      last > first + 15.0 && last >= 70.0
    case Sprint => s[4] > 0 && (forall i :: 0 <= i < 5 ==> s[i] <= s[4]) && s[4] >= 85
    case Steady => AllPositive(s) && Variance(s) < 100.0 && Avg(s) >= 70.0
    case Balanced => (forall i :: 0 <= i < 5 ==> 70 <= s[i] <= 90) && AllPositive(s)
    case CommitsWithinAndAvg(lo, hi, k) => lo <= f.commits <= hi && Avg(s) >= k as real
    case AllPerfect => forall i :: 0 <= i < 5 ==> s[i] == 100
    case CommitsAndAvg(c, k) => f.commits >= c && Avg(s) >= k as real
    case HourIn(lo, hi) => f.hour.Some? && lo <= f.hour.value < hi
    case LuckyTotal => Sum(s) in LuckyNumbers
    case HasScore(k) => k in s
    case Palindrome => (forall i :: 0 <= i < 5 ==> s[i] == s[4 - i]) && AllPositive(s)
    case StrictlyIncreasing => AllPositive(s) && forall i :: 0 <= i < 4 ==> s[i] < s[i + 1]
  }

  /** The badge a rule appends. */
  function BadgeOf(r: Rule, f: Facts): (b: Badge)
    ensures b.icon == r.icon && b.name == r.name && b.level == r.level
  {
    var desc := match r.desc
      case Fixed(text) => text
      case PerfectCountDesc => "获得" + NatToString(CountEq(f.scores, 100)) + "个满分"
      case TotalDesc => "总分正好" + IntToString(Sum(f.scores)) + "分";
    Badge(r.icon, r.name, desc, r.level)
  }

  /** The 41 rules of `calculate_badges`, in source order. */
  const Catalogue: seq<Rule> :=
    [
      Rule("🎉", "初来乍到", Fixed("完成第一个阶段"), Common, StagesDone(1)),
      Rule("📝", "踏实前行", Fixed("完成2个阶段"), Common, StagesDone(2)),
      Rule("🌱", "成长中", Fixed("完成3个阶段"), Common, StagesDone(3)),
      Rule("🚶", "稳步推进", Fixed("完成4个阶段"), Common, StagesDone(4)),
      Rule("💯", "任务达人", Fixed("完成全部5个阶段"), Rare, StagesDone(5)),
      Rule("📊", "及格万岁", Fixed("平均分≥60"), Common, AvgAtLeast(60)),
      Rule("🔰", "开门红", Fixed("第一阶段≥70"), Common, FirstAtLeast(70)),
      Rule("⭐", "新手之光", Fixed("第一阶段≥85"), Rare, FirstAtLeast(85)),
      Rule("💪", "努力者", Fixed("提交数≥10次"), Common, CommitsAtLeast(10)),
      Rule("⚡", "初露锋芒", Fixed("提交数≥25次"), Common, CommitsAtLeast(25)),
      Rule("📖", "良好", Fixed("平均分≥70"), Rare, AvgAtLeast(70)),
      Rule("✏️", "优等生", Fixed("平均分≥80"), Rare, AvgAtLeast(80)),
      Rule("🔥", "勤奋者", Fixed("提交数≥50次"), Rare, CommitsAtLeast(50)),
      Rule("🎯", "单项冠军", Fixed("有1个阶段≥90分"), Rare, HighPhases(1)),
      Rule("🌟", "双冠王", Fixed("有2个阶段≥90分"), Rare, HighPhases(2)),
      Rule("💎", "满分首秀", Fixed("获得首个满分"), Rare, PerfectPhases(1)),
      Rule("🚀", "全能战士", Fixed("所有阶段≥60"), Rare, AllAtLeast(60)),
      Rule("💪", "勤奋之星", Fixed("提交数≥80次"), Epic, CommitsAtLeast(80)),
      Rule("🎯", "三冠王", Fixed("有3个阶段≥90分"), Epic, HighPhases(3)),
      Rule("🌈", "进步之星", Fixed("持续进步超15分"), Rare, Improving),
      Rule("💫", "冲刺王", Fixed("最后阶段表现最好"), Rare, Sprint),
      Rule("🎖️", "稳定发挥", Fixed("分数波动小且稳定"), Rare, Steady),
      Rule("🏅", "均衡发展", Fixed("所有阶段70-90分"), Rare, Balanced),
      Rule("📚", "学霸", Fixed("平均分≥90"), Epic, AvgAtLeast(90)),
      Rule("💎", "精益求精", Fixed("所有阶段≥85"), Epic, AllAtLeast(85)),
      Rule("🔥", "超级肝帝", Fixed("提交数≥150次"), Epic, CommitsAtLeast(150)),
      Rule("⭐", "高效新星", Fixed("低提交高分数"), Epic, CommitsWithinAndAvg(10, 35, 85)),
      Rule("🎯", "四冠王", Fixed("有4个阶段≥90分"), Epic, HighPhases(4)),
      Rule("💫", "满分双响", Fixed("获得2个满分"), Epic, PerfectPhases(2)),
      Rule("🏆", "完美主义者", Fixed("所有阶段满分"), Legendary, AllPerfect),
      Rule("🌟", "神级学霸", Fixed("平均分≥95"), Legendary, AvgAtLeast(95)),
      Rule("🎨", "代码艺术家", Fixed("量质兼优"), Legendary, CommitsAndAvg(100, 85)),
      Rule("🎓", "学习榜样", Fixed("成绩优异且勤奋"), Legendary, CommitsAndAvg(60, 90)),
      Rule("👑", "全满贯", PerfectCountDesc, Legendary, PerfectPhases(4)),
      Rule("🦉", "夜猫子", Fixed("凌晨2-5点提交"), Special, HourIn(2, 5)),
      Rule("🌠", "早起鸟", Fixed("早上6-8点提交"), Special, HourIn(6, 8)),
      Rule("🎁", "幸运儿", TotalDesc, Special, LuckyTotal),
      Rule("🎲", "幸运7", Fixed("获得77分"), Special, HasScore(77)),
      Rule("🎰", "对称美", Fixed("分数完美对称"), Special, Palindrome),
      Rule("📈", "直线上升", Fixed("分数逐步提升"), Special, StrictlyIncreasing),
      Rule("🎪", "提交狂人", Fixed("提交数≥200次"), Special, CommitsAtLeast(200))
    ]

  /** The badges appended by the first `n` of `rules`, in append order. */
  function EarnedUpTo(rules: seq<Rule>, f: Facts, n: nat): (r: seq<Badge>)
    requires n <= |rules|
    ensures |r| <= n
  {
    if n == 0 then []
    else EarnedUpTo(rules, f, n - 1) + (if Holds(rules[n - 1].test, f) then [BadgeOf(rules[n - 1], f)] else [])
  }

  /** The list `calculate_badges` builds before sorting. */
  function Earned(f: Facts): seq<Badge> {
    EarnedUpTo(Catalogue, f, |Catalogue|)
  }

  /** The sort key order `(level_order[level], name)`. */
  predicate KeyLe(a: Badge, b: Badge) {
    Rank(a.level) < Rank(b.level) || (Rank(a.level) == Rank(b.level) && StrLe(a.name, b.name))
  }

  predicate Ordered(bs: seq<Badge>) {
    forall i, j :: 0 <= i < j < |bs| ==> KeyLe(bs[i], bs[j])
  }

  lemma KeyLeTotal(a: Badge, b: Badge)
    ensures KeyLe(a, b) || KeyLe(b, a)
  {
    StrLeTotal(a.name, b.name);
  }

  lemma KeyLeTrans(a: Badge, b: Badge, c: Badge)
    requires KeyLe(a, b) && KeyLe(b, c)
    ensures KeyLe(a, c)
  {
    if Rank(a.level) == Rank(b.level) == Rank(c.level) {
      StrLeTrans(a.name, b.name, c.name);
    }
  }

  /** Inserting before the first strictly greater element keeps the list ordered. */
  lemma InsertKeepsOrdered(ys: seq<Badge>, j: nat, x: Badge)
    requires Ordered(ys) && j <= |ys|
    requires forall k :: 0 <= k < j ==> KeyLe(ys[k], x)
    requires j < |ys| ==> !KeyLe(ys[j], x)
    ensures Ordered(ys[..j] + [x] + ys[j..])
  {
    var zs := ys[..j] + [x] + ys[j..];
    if j < |ys| {
      KeyLeTotal(ys[j], x);
      forall k | j <= k < |ys| ensures KeyLe(x, ys[k]) {
        if k > j {
          KeyLeTrans(x, ys[j], ys[k]);
        }
      }
    }
    forall a, b | 0 <= a < b < |zs| ensures KeyLe(zs[a], zs[b]) {
      if a < j && b > j {
        assert zs[b] == ys[b - 1];
        if b - 1 > a {
          assert KeyLe(ys[a], ys[b - 1]);
        }
      } else if a > j {
        assert zs[a] == ys[a - 1] && zs[b] == ys[b - 1];
      }
    }
  }

  lemma InsertMultiset<T>(ys: seq<T>, j: nat, x: T)
    requires j <= |ys|
    ensures multiset(ys[..j] + [x] + ys[j..]) == multiset(ys) + multiset{x}
  {
    assert ys == ys[..j] + ys[j..];
  }

  /** `badges.sort(key=...)`: a stable insertion sort. */
  method SortBadges(xs: seq<Badge>) returns (ys: seq<Badge>)
    ensures Ordered(ys) && multiset(ys) == multiset(xs)
  {
    ys := [];
    for i := 0 to |xs|
      invariant Ordered(ys) && multiset(ys) == multiset(xs[..i])
    {
      var x := xs[i];
      var j := 0;
      while j < |ys| && KeyLe(ys[j], x)
        invariant 0 <= j <= |ys|
        invariant forall k :: 0 <= k < j ==> KeyLe(ys[k], x)
      {
        j := j + 1;
      }
      InsertKeepsOrdered(ys, j, x);
      InsertMultiset(ys, j, x);
      ys := ys[..j] + [x] + ys[j..];
      assert xs[..i + 1] == xs[..i] + [x];
    }
    assert xs[..|xs|] == xs;
  }

  /** `calculate_badges(student, state_entry)`: exactly the earned badges, ordered by level rank, then name. */
  method CalculateBadges(scores: seq<int>, commits: int, hour: Option<int>) returns (badges: seq<Badge>)
    ensures Ordered(badges)
    ensures multiset(badges) == multiset(Earned(MakeFacts(scores, commits, hour)))
  {
    var f := MakeFacts(scores, commits, hour);
    var collected := CollectEarned(Catalogue, f);
    badges := SortBadges(collected);
  }

  /** The `if ...: badges.append(...)` sequence, one rule after the other. */
  method CollectEarned(rules: seq<Rule>, f: Facts) returns (collected: seq<Badge>)
    ensures collected == EarnedUpTo(rules, f, |rules|)
  {
    collected := [];
    for k := 0 to |rules|
      invariant collected == EarnedUpTo(rules, f, k)
    {
      var rule := rules[k];
      if Holds(rule.test, f) {
        collected := collected + [BadgeOf(rule, f)];
      }
    }
  }

  /** A badge of that name is in the list. */
  predicate HasBadge(bs: seq<Badge>, name: string) {
    exists i :: 0 <= i < |bs| && bs[i].name == name
  }

  /** Reordering does not change which badges are present. */
  lemma HasBadgeOfPermutation(xs: seq<Badge>, ys: seq<Badge>, name: string)
    requires multiset(xs) == multiset(ys)
    ensures HasBadge(xs, name) <==> HasBadge(ys, name)
  {
    if HasBadge(xs, name) {
      var i :| 0 <= i < |xs| && xs[i].name == name;
      assert xs[i] in multiset(ys);
    }
    if HasBadge(ys, name) {
      var i :| 0 <= i < |ys| && ys[i].name == name;
      assert ys[i] in multiset(xs);
    }
  }

  /** A badge is appended exactly when some rule of that name holds. */
  lemma {:induction false} EarnedUpToHas(rules: seq<Rule>, f: Facts, n: nat, name: string)
    requires n <= |rules|
    ensures HasBadge(EarnedUpTo(rules, f, n), name) <==>
      exists k :: 0 <= k < n && rules[k].name == name && Holds(rules[k].test, f)
  {
    if n > 0 {
      EarnedUpToHas(rules, f, n - 1, name);
      var prev := EarnedUpTo(rules, f, n - 1);
      var rule := rules[n - 1];
      if Holds(rule.test, f) {
        HasBadgeOfAppend(prev, BadgeOf(rule, f), name);
      } else {
        assert EarnedUpTo(rules, f, n) == prev;
      }
      if exists k :: 0 <= k < n && rules[k].name == name && Holds(rules[k].test, f) {
        var k :| 0 <= k < n && rules[k].name == name && Holds(rules[k].test, f);
        assert k < n - 1 || k == n - 1;
      }
    }
  }

  /** Appending one badge adds exactly its name. */
  lemma HasBadgeOfAppend(bs: seq<Badge>, b: Badge, name: string)
    ensures HasBadge(bs + [b], name) <==> HasBadge(bs, name) || b.name == name
  {
    var r := bs + [b];
    if HasBadge(r, name) {
      var i :| 0 <= i < |r| && r[i].name == name;
      if i < |bs| {
        assert bs[i] == r[i];
      }
    }
    if HasBadge(bs, name) {
      var i :| 0 <= i < |bs| && bs[i].name == name;
      assert r[i] == bs[i];
    }
    assert r[|bs|] == b;
  }

  /** The output of `CalculateBadges` holds a badge of a given catalogue name exactly when that rule holds. */
  lemma OutputHasBadge(scores: seq<int>, commits: int, hour: Option<int>, badges: seq<Badge>, k: nat)
    requires k < |Catalogue|
    requires multiset(badges) == multiset(Earned(MakeFacts(scores, commits, hour)))
    requires forall j :: 0 <= j < |Catalogue| && j != k ==> Catalogue[j].name != Catalogue[k].name
    ensures HasBadge(badges, Catalogue[k].name) <==> Holds(Catalogue[k].test, MakeFacts(scores, commits, hour))
  {
    var f := MakeFacts(scores, commits, hour);
    HasBadgeOfPermutation(badges, Earned(f), Catalogue[k].name);
    EarnedUpToHas(Catalogue, f, |Catalogue|, Catalogue[k].name);
  }

  /** The total of five scores. */
  lemma SumFive(s: Five)
    ensures Sum(s) == s[0] + s[1] + s[2] + s[3] + s[4]
  {
    assert s[..4][..3] == s[..3] && s[..3][..2] == s[..2] && s[..2][..1] == s[..1];
    assert Sum(s[..1]) == s[0] by { assert s[..1][..0] == []; }
    assert Sum(s[..2]) == Sum(s[..1]) + s[1];
    assert Sum(s[..3]) == Sum(s[..2]) + s[2];
    assert Sum(s[..4]) == Sum(s[..3]) + s[3];
  }

  /** `avg_score >= k` is `total >= 5k`. */
  lemma AvgAtLeastIff(s: Five, k: int)
    ensures Avg(s) >= k as real <==> Sum(s) >= 5 * k
  {
  }

  /** 超级肝帝 appears exactly when at least 150 commits were counted. */
  lemma SuperGrinderIff(scores: seq<int>, commits: int, hour: Option<int>, badges: seq<Badge>)
    requires multiset(badges) == multiset(Earned(MakeFacts(scores, commits, hour)))
    ensures HasBadge(badges, "超级肝帝") <==> commits >= 150
  {
    assert Catalogue[25].name == "超级肝帝";
    assert forall j :: 0 <= j < |Catalogue| && j != 25 ==> Catalogue[j].name != "超级肝帝";
    OutputHasBadge(scores, commits, hour, badges, 25);
  }

  /** 完美主义者 appears exactly when there are five scores and all are 100. */
  lemma PerfectionistIff(scores: seq<int>, commits: int, hour: Option<int>, badges: seq<Badge>)
    requires multiset(badges) == multiset(Earned(MakeFacts(scores, commits, hour)))
    ensures HasBadge(badges, "完美主义者") <==> |scores| == 5 && forall i :: 0 <= i < 5 ==> scores[i] == 100
  {
    assert Catalogue[29].name == "完美主义者";
    assert forall j :: 0 <= j < |Catalogue| && j != 29 ==> Catalogue[j].name != "完美主义者";
    OutputHasBadge(scores, commits, hour, badges, 29);
    if |scores| != 5 {
      assert MakeFacts(scores, commits, hour).scores[0] == 0;
    }
  }

  /** 学霸 appears exactly when the average is at least 90, that is the total at least 450. */
  lemma TopStudentIff(scores: seq<int>, commits: int, hour: Option<int>, badges: seq<Badge>)
    requires multiset(badges) == multiset(Earned(MakeFacts(scores, commits, hour)))
    ensures var s := MakeFacts(scores, commits, hour).scores;
      (HasBadge(badges, "学霸") <==> Avg(s) >= 90.0) && (HasBadge(badges, "学霸") <==> Sum(s) >= 450)
  {
    assert Catalogue[23].name == "学霸";
    assert forall j :: 0 <= j < |Catalogue| && j != 23 ==> Catalogue[j].name != "学霸";
    OutputHasBadge(scores, commits, hour, badges, 23);
    AvgAtLeastIff(MakeFacts(scores, commits, hour).scores, 90);
  }

  /** The tiers do not exclude each other: five perfect scores earn 完美主义者, 学霸 and 神级学霸 together. */
  lemma AllHundredsEarnsEveryTier(commits: int, hour: Option<int>, badges: seq<Badge>)
    requires multiset(badges) == multiset(Earned(MakeFacts([100, 100, 100, 100, 100], commits, hour)))
    ensures HasBadge(badges, "完美主义者") && HasBadge(badges, "学霸") && HasBadge(badges, "神级学霸")
  {
    var scores := [100, 100, 100, 100, 100];
    SumFive(scores);
    PerfectionistIff(scores, commits, hour, badges);
    TopStudentIff(scores, commits, hour, badges);
    assert Catalogue[30].name == "神级学霸";
    assert forall j :: 0 <= j < |Catalogue| && j != 30 ==> Catalogue[j].name != "神级学霸";
    OutputHasBadge(scores, commits, hour, badges, 30);
  }

  /** 进步之星 in integers: with A the first two and B the last three scores,
      B/3 > A/2 + 15 and B/3 >= 70 is 2B > 3A + 90 and B >= 210. */
  lemma ImprovingIntegerForm(f: Facts)
    ensures var s := f.scores; var a := s[0] + s[1]; var b := s[2] + s[3] + s[4];
      Holds(Improving, f) <==> AllPositive(s) && 2 * b > 3 * a + 90 && b >= 210
  {
  }

  /** 稳定发挥 in integers: with T the total, variance < 100 and mean >= 70 is
      sum of (5s - T)^2 < 12500 and T >= 350. */
  lemma SteadyIntegerForm(f: Facts)
    ensures var s := f.scores; var t := Sum(s);
      Holds(Steady, f) <==>
        AllPositive(s)
        && (5 * s[0] - t) * (5 * s[0] - t) + (5 * s[1] - t) * (5 * s[1] - t) + (5 * s[2] - t) * (5 * s[2] - t)
           + (5 * s[3] - t) * (5 * s[3] - t) + (5 * s[4] - t) * (5 * s[4] - t) < 12500
        && t >= 350
  {
    var s := f.scores;
    var t := Sum(s);
    var q := (5 * s[0] - t) * (5 * s[0] - t) + (5 * s[1] - t) * (5 * s[1] - t) + (5 * s[2] - t) * (5 * s[2] - t)
      + (5 * s[3] - t) * (5 * s[3] - t) + (5 * s[4] - t) * (5 * s[4] - t);
    VarianceInIntegers(s);
    assert Variance(s) < 100.0 <==> q < 12500;
  }

  /** The variance is the sum of the squared deviations of the five-fold scores from the total, over 125. */
  lemma VarianceInIntegers(s: Five)
    ensures var t := Sum(s);
      Variance(s) == ((5 * s[0] - t) * (5 * s[0] - t) + (5 * s[1] - t) * (5 * s[1] - t) + (5 * s[2] - t) * (5 * s[2] - t)
        + (5 * s[3] - t) * (5 * s[3] - t) + (5 * s[4] - t) * (5 * s[4] - t)) as real / 125.0
  {
    var t := Sum(s);
    SquareDeviation(s[0], t);
    SquareDeviation(s[1], t);
    SquareDeviation(s[2], t);
    SquareDeviation(s[3], t);
    SquareDeviation(s[4], t);
  }

  lemma SquareDeviation(x: int, t: int)
    ensures Square(x as real - t as real / 5.0) == ((5 * x - t) * (5 * x - t)) as real / 25.0
  {
    var d := (5 * x - t) as real;
    assert x as real - t as real / 5.0 == d / 5.0;
    assert (d / 5.0) * (d / 5.0) == (d * d) / 25.0;
  }
}
