/**
 * The state a search session shares between its command handlers, its
 * loader and its completer (commandFinder/search_command.py): the `$IP`
 * and `$URL` values, the bounded lists of recent values and the four maps
 * built from the cheat-sheet directory.
 */
module Session {
  import opened Wrappers

  /** How many recent IPs or URLs are remembered. */
  const MaxRecent: nat := 5

  /** No repeated value and at most `MaxRecent` of them. */
  predicate RecentOk(xs: seq<string>) {
    |xs| <= MaxRecent && forall i, j :: 0 <= i < j < |xs| ==> xs[i] != xs[j]
  }

  /**
   * Remembering a value: appended only when absent, and the oldest entry
   * is dropped once there are more than five.
   */
  function PushRecent(xs: seq<string>, v: string): (r: seq<string>)
  {
    if v in xs then xs
    else if |xs + [v]| > MaxRecent then (xs + [v])[1..]
    else xs + [v]
  }

  /**
   * The recent lists stay bounded and free of repeats, the value pushed is
   * present afterwards, and a new value is the newest entry with only the
   * oldest dropped.
   */
  lemma PushRecentSpec(xs: seq<string>, v: string)
    requires RecentOk(xs)
    ensures RecentOk(PushRecent(xs, v))
    ensures v in PushRecent(xs, v)
    ensures v in xs ==> PushRecent(xs, v) == xs
    ensures v !in xs ==> PushRecent(xs, v)[|PushRecent(xs, v)| - 1] == v
    ensures v !in xs && |xs| == MaxRecent ==> PushRecent(xs, v) == xs[1..] + [v]
    ensures v !in xs && |xs| < MaxRecent ==> PushRecent(xs, v) == xs + [v]
  {
    if v !in xs {
      var ys := xs + [v];
      assert forall i, j :: 0 <= i < j < |ys| ==> ys[i] != ys[j] by {
        forall i, j | 0 <= i < j < |ys| ensures ys[i] != ys[j] {
          if j == |xs| { assert ys[i] in xs; }
        }
      }
      if |ys| > MaxRecent {
        assert ys[1..] == xs[1..] + [v];
      }
    }
  }

  class SearchCommand {
    const rootDir: string
    var ipValue: Option<string>
    var urlValue: Option<string>
    var recentIps: seq<string>
    var recentUrls: seq<string>
    /** Category name to its tool names, in the order they were found. */
    var categories: map<string, seq<string>>
    var toolsByCategory: map<string, seq<string>>
    var toolToCategory: map<string, string>
    var toolToFile: map<string, string>

    ghost predicate Valid()
      reads this
    {
      RecentOk(recentIps) && RecentOk(recentUrls)
    }

    constructor(rootDir: string)
      ensures Valid()
      ensures this.rootDir == rootDir
      ensures ipValue == None && urlValue == None
      ensures recentIps == [] && recentUrls == []
      ensures categories == map[] && toolsByCategory == map[]
      ensures toolToCategory == map[] && toolToFile == map[]
    {
      this.rootDir := rootDir;
      ipValue := None;
      urlValue := None;
      recentIps := [];
      recentUrls := [];
      categories := map[];
      toolsByCategory := map[];
      toolToCategory := map[];
      toolToFile := map[];
    }
  }
}
