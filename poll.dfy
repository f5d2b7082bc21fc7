/**
 * One poll cycle of the alerter (src/alertbot/main.py): the keyword filter,
 * the initial seed mode, the body of the endless polling loop run once
 * against the store, and the pause between cycles.
 *
 * Fetching is a parameter (the page text, or `None` when `fetch_html`
 * raised); the notifier is a parameter telling whether the n-th
 * `send_telegram` call of the cycle returns or raises.
 */
module Poll {
  import opened Options
  import opened Strings
  import opened Settings
  import opened Parser
  import opened Store

  // ---------------------------------------------------------------- keywords

  /** Some keyword, lowercased, occurs in the haystack (`any(...)`). */
  function AnyKeyword(haystack: string, keywords: seq<string>): (found: bool)
    ensures found <==> exists k :: k in keywords && Contains(haystack, Lower(k))
  {
    if keywords == [] then false
    else Contains(haystack, Lower(keywords[0])) || AnyKeyword(haystack, keywords[1..])
  }

  /** The text searched for keywords: title and content, lowercased. */
  function Haystack(item: ParsedItem): (h: string)
    ensures |h| == |item.title| + 1 + |item.content|
    ensures h[..|item.title|] == Lower(item.title) && h[|item.title|] == ' '
    ensures h[|item.title| + 1..] == Lower(item.content)
  {
    Lower(item.title + " " + item.content)
  }

  /**
   * `_matches_keywords`: true for an empty keyword list, otherwise true iff
   * some lowercased keyword occurs in the lowercased title-and-content.
   */
  function MatchesKeywords(item: ParsedItem, keywords: seq<string>): (m: bool)
    ensures keywords == [] ==> m
    ensures keywords != [] ==> (m <==> exists k :: k in keywords && Contains(Haystack(item), Lower(k)))
  {
    keywords == [] || AnyKeyword(Haystack(item), keywords)
  }

  /** The keyword gate of the loop: filtering off, or the item matches. */
  predicate Passes(config: Config, item: ParsedItem): (pass: bool)
    ensures !config.useKeywords || config.keywords == [] ==> pass
  {
    !config.useKeywords || MatchesKeywords(item, config.keywords)
  }

  /** A keyword found in the title alone is enough, whatever the content. */
  lemma {:induction false} TitleMatchSuffices(item: ParsedItem, keywords: seq<string>, k: string)
    requires k in keywords && Contains(Lower(item.title), Lower(k))
    ensures MatchesKeywords(item, keywords)
  {
    var h := Haystack(item);
    var t := Lower(item.title);
    var n := Lower(k);
    var i: nat :| i <= |t| && OccursAt(t, n, i);
    assert h[i..i + |n|] == t[i..i + |n|] by {
      assert h[..|t|] == t;
      assert forall j :: i <= j < i + |n| ==> h[j] == h[..|t|][j];
    }
    assert OccursAt(h, n, i);
  }

  /** Matching ignores case on both sides: `SALE` finds the title `Big Sale`. */
  lemma KeywordMatchIgnoresCase(hash: string)
    ensures MatchesKeywords(ParsedItem("Big Sale", None, "", hash), ["SALE"])
  {
    assert Lower("SALE") == "sale";
    assert OccursAt(Lower("Big Sale"), Lower("SALE"), 4);
    TitleMatchSuffices(ParsedItem("Big Sale", None, "", hash), ["SALE"], "SALE");
  }

  /** An item that mentions no keyword fails the filter: `sale` is not in `Update`. */
  lemma KeywordMissing(hash: string)
    ensures !MatchesKeywords(ParsedItem("Update", None, "", hash), ["sale"])
  {
    var plain := ParsedItem("Update", None, "", hash);
    assert Haystack(plain) == "update ";
    NotContainsFirstChar(Haystack(plain), Lower("sale"));
  }

  // ---------------------------------------------------------------- the cycle, specified

  /** How the item loop of one cycle ends: the table, the items delivered in order, the item whose send raised. */
  datatype LoopEnd = LoopEnd(table: Table, delivered: seq<ParsedItem>, failed: Option<ParsedItem>)

  /**
   * The `for item in items` loop of one cycle, from the table `t`, with
   * `attempt` sends already made: skip an item that fails the keyword gate
   * or is seen; in seed mode mark it; otherwise send it, and mark it only if
   * the send returned; a send that raises ends the loop.
   */
  function RunItems(t: Table, items: seq<ParsedItem>, config: Config, seedOnly: bool,
                    notifier: nat -> bool, attempt: nat): LoopEnd
    decreases |items|
  {
    if items == [] then LoopEnd(t, [], None)
    else
      var item := items[0];
      if !Passes(config, item) || Seen(t.rows, item) then
        RunItems(t, items[1..], config, seedOnly, notifier, attempt)
      else if seedOnly then
        RunItems(Insert(t, item), items[1..], config, seedOnly, notifier, attempt)
      else if !notifier(attempt) then
        LoopEnd(t, [], Some(item))
      else
        var rest := RunItems(Insert(t, item), items[1..], config, seedOnly, notifier, attempt + 1);
        LoopEnd(rest.table, [item] + rest.delivered, rest.failed)
  }

  /** The items that pass the keyword gate, in order. */
  function Eligible(config: Config, items: seq<ParsedItem>): (r: seq<ParsedItem>)
    ensures |r| <= |items|
    ensures forall x :: x in r ==> x in items && Passes(config, x)
  {
    if items == [] then []
    else (if Passes(config, items[0]) then [items[0]] else []) + Eligible(config, items[1..])
  }

  /** `mark_seen` applied to each item in turn. */
  function InsertAll(t: Table, items: seq<ParsedItem>): Table
    decreases |items|
  {
    if items == [] then t else InsertAll(Insert(t, items[0]), items[1..])
  }

  // ---------------------------------------------------------------- the cycle, imperative

  /** Where a cycle stopped; every cycle ends in the exception handler. */
  datatype CycleEnd =
    | FetchFailed    // fetch_html raised
    | NotifyFailed   // send_telegram raised inside the item loop
    | PruneMissing   // the loop finished; storage.prune_keep_latest does not exist and raises

  /** `seed_only = config.seed_existing and storage.is_empty()` */
  method InitialSeedOnly(config: Config, store: Storage) returns (seedOnly: bool)
    ensures seedOnly <==> config.seedExisting && store.rows == []
  {
    seedOnly := false;
    if config.seedExisting {
      seedOnly := store.IsEmpty();
    }
  }

  /** `max(config.poll_interval_seconds, 5)`: the pause never drops below five seconds. */
  function SleepSeconds(config: Config): (s: int)
    ensures s >= 5 && s >= config.pollIntervalSeconds
    ensures s == 5 || s == config.pollIntervalSeconds
  {
    if config.pollIntervalSeconds < 5 then 5 else config.pollIntervalSeconds
  }

  function Resume(before: seq<ParsedItem>, r: LoopEnd): LoopEnd
  {
    LoopEnd(r.table, before + r.delivered, r.failed)
  }

  lemma ResumeAppend(before: seq<ParsedItem>, item: ParsedItem, r: LoopEnd)
    ensures Resume(before, Resume([item], r)) == Resume(before + [item], r)
  {
    assert before + ([item] + r.delivered) == (before + [item]) + r.delivered;
  }

  /** An item that fails the gate or is seen is passed over. */
  lemma SkipStep(t: Table, items: seq<ParsedItem>, i: nat, config: Config, seedOnly: bool,
                 notifier: nat -> bool, attempt: nat)
    requires i < |items| && (!Passes(config, items[i]) || Seen(t.rows, items[i]))
    ensures RunItems(t, items[i..], config, seedOnly, notifier, attempt)
         == RunItems(t, items[i + 1..], config, seedOnly, notifier, attempt)
  {
    assert items[i..][0] == items[i] && items[i..][1..] == items[i + 1..];
  }

  /** In seed mode an eligible unseen item is marked and the loop goes on. */
  lemma SeedStep(t: Table, items: seq<ParsedItem>, i: nat, config: Config,
                 notifier: nat -> bool, attempt: nat)
    requires i < |items| && Passes(config, items[i]) && !Seen(t.rows, items[i])
    ensures RunItems(t, items[i..], config, true, notifier, attempt)
         == RunItems(Insert(t, items[i]), items[i + 1..], config, true, notifier, attempt)
  {
    assert items[i..][0] == items[i] && items[i..][1..] == items[i + 1..];
  }

  /** Outside seed mode an eligible unseen item is sent; a raising send ends the loop. */
  lemma SendStep(t: Table, items: seq<ParsedItem>, i: nat, config: Config,
                 notifier: nat -> bool, attempt: nat)
    requires i < |items| && Passes(config, items[i]) && !Seen(t.rows, items[i])
    ensures !notifier(attempt) ==>
              RunItems(t, items[i..], config, false, notifier, attempt) == LoopEnd(t, [], Some(items[i]))
    ensures notifier(attempt) ==>
              (RunItems(t, items[i..], config, false, notifier, attempt)
               == Resume([items[i]], RunItems(Insert(t, items[i]), items[i + 1..], config, false, notifier, attempt + 1)))
  {
    assert items[i..][0] == items[i] && items[i..][1..] == items[i + 1..];
  }

  /**
   * The `for item in items` loop of one cycle run against the store: it
   * reaches the table, the deliveries and the failure `RunItems` describes.
   */
  method RunLoop(store: Storage, items: seq<ParsedItem>, config: Config, notifier: nat -> bool, seedOnly: bool)
    returns (delivered: seq<ParsedItem>, failed: bool)
    requires store.Valid()
    modifies store
    ensures store.Valid()
    ensures var r := RunItems(old(store.Snapshot()), items, config, seedOnly, notifier, 0);
            store.Snapshot() == r.table && delivered == r.delivered && failed == r.failed.Some?
  {
    ghost var spec := RunItems(store.Snapshot(), items, config, seedOnly, notifier, 0);
    delivered := [];
    for i := 0 to |items|
      invariant store.Valid()
      invariant spec == Resume(delivered, RunItems(store.Snapshot(), items[i..], config, seedOnly, notifier, |delivered|))
    {
      var item := items[i];
      ghost var cur := store.Snapshot();
      if config.useKeywords && !MatchesKeywords(item, config.keywords) {
        SkipStep(cur, items, i, config, seedOnly, notifier, |delivered|);
        assert spec == Resume(delivered, RunItems(cur, items[i + 1..], config, seedOnly, notifier, |delivered|));
        continue;
      }
      var seen := store.IsSeen(item);
      assert seen == Seen(cur.rows, item);
      if seen {
        SkipStep(cur, items, i, config, seedOnly, notifier, |delivered|);
        assert spec == Resume(delivered, RunItems(cur, items[i + 1..], config, seedOnly, notifier, |delivered|));
        continue;
      }
      if seedOnly {
        SeedStep(cur, items, i, config, notifier, |delivered|);
        store.MarkSeen(item);
        assert spec == Resume(delivered, RunItems(Insert(cur, item), items[i + 1..], config, seedOnly, notifier, |delivered|));
        continue;
      }
      SendStep(cur, items, i, config, notifier, |delivered|);
      if !notifier(|delivered|) {
        assert delivered + [] == delivered;
        return delivered, true;
      }
      store.MarkSeen(item);
      ResumeAppend(delivered, item, RunItems(Insert(cur, item), items[i + 1..], config, seedOnly, notifier, |delivered| + 1));
      delivered := delivered + [item];
      assert spec == Resume(delivered, RunItems(Insert(cur, item), items[i + 1..], config, seedOnly, notifier, |delivered|));
    }
    assert items[|items|..] == [];
    assert delivered + [] == delivered;
    failed := false;
  }

  /**
   * One pass of the `while True` body: fetch (given as `page`), parse, run the
   * item loop against the store, clear seed mode only once the loop has
   * finished, then fail at the missing prune call. A failed fetch changes
   * nothing; a failed send keeps seed mode and every mark made before it.
   */
  method PollOnce<E>(store: Storage, tk: Toolkit<E>, config: Config, page: Option<string>,
                     notifier: nat -> bool, seedOnly: bool)
    returns (seedAfter: bool, delivered: seq<ParsedItem>, end: CycleEnd)
    requires store.Valid()
    modifies store
    ensures store.Valid()
    ensures page.None? ==>
              store.Snapshot() == old(store.Snapshot()) && delivered == [] &&
              seedAfter == seedOnly && end == FetchFailed
    ensures page.Some? ==>
              var r := RunItems(old(store.Snapshot()), ParseItems(tk, page.value, config), config, seedOnly, notifier, 0);
              && store.Snapshot() == r.table
              && delivered == r.delivered
              && (r.failed.Some? ==> end == NotifyFailed && seedAfter == seedOnly)
              && (r.failed.None? ==> end == PruneMissing && !seedAfter)
  {
    if page.None? {
      return seedOnly, [], FetchFailed;
    }
    var items := ParseItems(tk, page.value, config);
    var failed;
    delivered, failed := RunLoop(store, items, config, notifier, seedOnly);
    if failed {
      return seedOnly, delivered, NotifyFailed;
    }
    seedAfter := false;
    end := PruneMissing;
  }

  // ---------------------------------------------------------------- properties

  /**
   * The loop delivers no more items than the page has, and only items of the
   * page; the item whose send raised is one of them too, and seed mode never
   * fails.
   */
  lemma {:induction false} RunItemsBounds(t: Table, items: seq<ParsedItem>, config: Config, seedOnly: bool,
                                          notifier: nat -> bool, attempt: nat)
    ensures var r := RunItems(t, items, config, seedOnly, notifier, attempt);
            && |r.delivered| <= |items|
            && (forall x :: x in r.delivered ==> x in items)
            && (r.failed.Some? ==> r.failed.value in items && !seedOnly)
    decreases |items|
  {
    if items != [] {
      var item := items[0];
      assert forall x :: x in items[1..] ==> x in items;
      if !Passes(config, item) || Seen(t.rows, item) {
        RunItemsBounds(t, items[1..], config, seedOnly, notifier, attempt);
      } else if seedOnly {
        RunItemsBounds(Insert(t, item), items[1..], config, seedOnly, notifier, attempt);
      } else if notifier(attempt) {
        RunItemsBounds(Insert(t, item), items[1..], config, seedOnly, notifier, attempt + 1);
      }
    }
  }

  /** In seed mode nothing is sent and no send can fail. */
  lemma {:induction false} SeedModeSilent(t: Table, items: seq<ParsedItem>, config: Config,
                                          notifier: nat -> bool, attempt: nat)
    ensures RunItems(t, items, config, true, notifier, attempt).delivered == []
    ensures RunItems(t, items, config, true, notifier, attempt).failed.None?
    decreases |items|
  {
    if items != [] {
      SeedModeSilent(t, items[1..], config, notifier, attempt);
      SeedModeSilent(Insert(t, items[0]), items[1..], config, notifier, attempt);
    }
  }

  /**
   * In seed mode the store ends up holding what insert-or-ignore of every
   * item that passes the keyword gate, in order, gives from a table `u` with
   * the same entries as `t` (`u == t` in the first place). Only the entries
   * agree: an item found seen is skipped without drawing an id.
   */
  lemma {:induction false} SeedModeMarksEligible(t: Table, u: Table, items: seq<ParsedItem>, config: Config,
                                                 notifier: nat -> bool, attempt: nat)
    requires Entries(t.rows) == Entries(u.rows)
    ensures Entries(RunItems(t, items, config, true, notifier, attempt).table.rows)
         == Entries(InsertAll(u, Eligible(config, items)).rows)
    decreases |items|
  {
    if items != [] {
      var item := items[0];
      var rest := Eligible(config, items[1..]);
      if Passes(config, item) {
        assert Eligible(config, items) == [item] + rest;
        assert ([item] + rest)[0] == item && ([item] + rest)[1..] == rest;
        SameEntriesSameAnswers(t.rows, u.rows, item);
        if Seen(t.rows, item) {
          SeenMeansIgnored(u, item);
          SeedModeMarksEligible(t, Insert(u, item), items[1..], config, notifier, attempt);
        } else {
          InsertSameEntries(t, u, item);
          SeedModeMarksEligible(Insert(t, item), Insert(u, item), items[1..], config, notifier, attempt);
        }
      } else {
        assert Eligible(config, items) == rest;
        SeedModeMarksEligible(t, u, items[1..], config, notifier, attempt);
      }
    }
  }

  /** Items that fail the keyword gate reach neither the store nor the notifier: the loop runs as if they were absent. */
  lemma {:induction false} GateDropsIneligible(t: Table, items: seq<ParsedItem>, config: Config, seedOnly: bool,
                                               notifier: nat -> bool, attempt: nat)
    ensures RunItems(t, items, config, seedOnly, notifier, attempt)
         == RunItems(t, Eligible(config, items), config, seedOnly, notifier, attempt)
    decreases |items|
  {
    if items != [] {
      var item := items[0];
      var rest := Eligible(config, items[1..]);
      if Passes(config, item) {
        assert Eligible(config, items) == [item] + rest;
        assert ([item] + rest)[0] == item && ([item] + rest)[1..] == rest;
        GateDropsIneligible(t, items[1..], config, seedOnly, notifier, attempt);
        GateDropsIneligible(Insert(t, item), items[1..], config, seedOnly, notifier, attempt);
        GateDropsIneligible(Insert(t, item), items[1..], config, seedOnly, notifier, attempt + 1);
      } else {
        assert Eligible(config, items) == rest;
        GateDropsIneligible(t, items[1..], config, seedOnly, notifier, attempt);
      }
    }
  }

  /**
   * Outside seed mode an item is marked only after its send returned: the
   * final table is exactly the delivered items marked in order, every one of
   * them passed the gate, and an item whose send raised is left unseen.
   */
  lemma {:induction false} MarkedOnlyAfterDelivery(t: Table, items: seq<ParsedItem>, config: Config,
                                                   notifier: nat -> bool, attempt: nat)
    ensures var r := RunItems(t, items, config, false, notifier, attempt);
            && r.table == InsertAll(t, r.delivered)
            && (forall x :: x in r.delivered ==> Passes(config, x))
            && (r.failed.Some? ==> Passes(config, r.failed.value) && !Seen(r.table.rows, r.failed.value))
    decreases |items|
  {
    if items != [] {
      var item := items[0];
      if !Passes(config, item) || Seen(t.rows, item) {
        MarkedOnlyAfterDelivery(t, items[1..], config, notifier, attempt);
      } else if notifier(attempt) {
        var rest := RunItems(Insert(t, item), items[1..], config, false, notifier, attempt + 1);
        MarkedOnlyAfterDelivery(Insert(t, item), items[1..], config, notifier, attempt + 1);
        assert ([item] + rest.delivered)[0] == item && ([item] + rest.delivered)[1..] == rest.delivered;
      }
    }
  }

  /** A page whose items are all seen, or filtered out, sends nothing and leaves the store as it was. */
  lemma {:induction false} AllSeenQuiet(t: Table, items: seq<ParsedItem>, config: Config, seedOnly: bool,
                                        notifier: nat -> bool, attempt: nat)
    requires forall x :: x in items ==> !Passes(config, x) || Seen(t.rows, x)
    ensures RunItems(t, items, config, seedOnly, notifier, attempt) == LoopEnd(t, [], None)
    decreases |items|
  {
    if items != [] {
      assert items[0] in items;
      assert forall x :: x in items[1..] ==> x in items;
      AllSeenQuiet(t, items[1..], config, seedOnly, notifier, attempt);
    }
  }

  /**
   * Whole-page mode: the single item always carries the target URL as its
   * link, so once a row with that link is stored, a cycle on any page text
   * sends nothing and changes nothing.
   */
  lemma WholePageQuietOnceStored<E>(tk: Toolkit<E>, html: string, config: Config, t: Table,
                                     seedOnly: bool, notifier: nat -> bool)
    requires Matched(tk, html, config) == [] && config.targetUrl != ""
    requires LinkStored(t.rows, config.targetUrl)
    ensures RunItems(t, ParseItems(tk, html, config), config, seedOnly, notifier, 0) == LoopEnd(t, [], None)
  {
    var items := ParseItems(tk, html, config);
    assert items == [PageItem(tk, html, config)];
    assert items[1..] == [];
  }

  /**
   * Whole-page mode notifies at most once while its row is kept: after a
   * cycle that sent the page item, provided its hash was not already stored,
   * the next whole-page cycle sends nothing, whatever the page text.
   * `WholePageRepeats` is the case the proviso leaves out.
   */
  lemma WholePageAtMostOnce<E>(tk: Toolkit<E>, html1: string, html2: string, config: Config, t: Table,
                                seedOnly: bool, notifier1: nat -> bool, notifier2: nat -> bool)
    requires Matched(tk, html1, config) == [] && Matched(tk, html2, config) == [] && config.targetUrl != ""
    requires !HashStored(t.rows, PageItem(tk, html1, config).contentHash)
    requires RunItems(t, ParseItems(tk, html1, config), config, seedOnly, notifier1, 0).delivered != []
    ensures var t1 := RunItems(t, ParseItems(tk, html1, config), config, seedOnly, notifier1, 0).table;
            RunItems(t1, ParseItems(tk, html2, config), config, seedOnly, notifier2, 0).delivered == []
  {
    var item := PageItem(tk, html1, config);
    var items := ParseItems(tk, html1, config);
    assert items == [item] && items[1..] == [];
    var t1 := Insert(t, item);
    assert !Conflicts(t.rows, item);
    assert t1.rows[|t.rows|].link == Some(config.targetUrl);
    assert LinkStored(t1.rows, config.targetUrl);
    WholePageQuietOnceStored(tk, html2, config, t1, seedOnly, notifier2);
  }

  /**
   * Whole-page mode when the page's hash is already stored under another
   * link: the page item is not seen (its link is new), is sent, and its
   * insert is ignored on the hash index, so the rows stay as they were and
   * the next cycle on the same text sends it again.
   */
  lemma WholePageRepeats<E>(tk: Toolkit<E>, html: string, config: Config, t: Table, notifier: nat -> bool)
    requires Matched(tk, html, config) == [] && config.targetUrl != ""
    requires !LinkStored(t.rows, config.targetUrl)
    requires HashStored(t.rows, PageItem(tk, html, config).contentHash)
    requires Passes(config, PageItem(tk, html, config)) && notifier(0)
    ensures var r := RunItems(t, ParseItems(tk, html, config), config, false, notifier, 0);
            && r.delivered == [PageItem(tk, html, config)]
            && r.failed.None?
            && r.table.rows == t.rows
            && r.table.lastId == t.lastId + 1
  {
    var items := ParseItems(tk, html, config);
    assert items == [PageItem(tk, html, config)] && items[1..] == [];
  }
}
