/** What the regrouping of a Codex session keeps, and how its pages fit together. */
module CodexProperties {

  import opened Codex
  import opened CodexMessages

  // ---- Nothing lost, nothing added ------------------------------------------------------------

  /** The explored messages, or the others, in order. */
  function Only(all: seq<Message>, explored: bool): seq<Message> {
    if all == [] then []
    else
      Only(all[..|all| - 1], explored)
      + if all[|all| - 1].suffix.ExploredSuffix? == explored then [all[|all| - 1]] else []
  }

  lemma {:induction false} OnlyAppend(a: seq<Message>, b: seq<Message>, explored: bool)
    ensures Only(a + b, explored) == Only(a, explored) + Only(b, explored)
  {
    if b == [] {
      assert a + b == a;
    } else {
      var front := b[..|b| - 1];
      assert (a + b)[..|a + b| - 1] == a + front;
      OnlyAppend(a, front, explored);
    }
  }

  lemma OnlyOne(m: Message, explored: bool)
    ensures Only([m], explored) == if m.suffix.ExploredSuffix? == explored then [m] else []
  {
    assert [m][..0] == [];
  }

  lemma {:induction false} RenderItemsAppend(a: seq<Item>, b: seq<Item>)
    ensures RenderItems(a + b) == RenderItems(a) + RenderItems(b)
  {
    if b == [] {
      assert a + b == a;
    } else {
      var front := b[..|b| - 1];
      assert (a + b)[..|a + b| - 1] == a + front;
      RenderItemsAppend(a, front);
    }
  }

  lemma {:induction false} SummariesAppend(summarise: (string, string) -> string, a: seq<Item>, b: seq<Item>)
    ensures SummariesOf(summarise, a + b) == SummariesOf(summarise, a) + SummariesOf(summarise, b)
  {
    if b == [] {
      assert a + b == a;
    } else {
      var front := b[..|b| - 1];
      assert (a + b)[..|a + b| - 1] == a + front;
      SummariesAppend(summarise, a, front);
    }
  }

  lemma {:induction false} RenderedArePlain(items: seq<Item>)
    ensures Only(RenderItems(items), false) == RenderItems(items)
    ensures Only(RenderItems(items), true) == []
  {
    if items != [] {
      var front, it := items[..|items| - 1], items[|items| - 1];
      RenderedArePlain(front);
      OnlyAppend(RenderItems(front), RenderItem(it), false);
      OnlyAppend(RenderItems(front), RenderItem(it), true);
      if RenderItem(it) != [] {
        OnlyOne(RenderItem(it)[0], false);
        OnlyOne(RenderItem(it)[0], true);
      }
    }
  }

  predicate Announces(m: Message, p: Pending, number: nat) {
    && m.role == "assistant" && m.suffix == ExploredSuffix(number) && m.line == p.lastLine
    && m.content == [TextBlock(ExploredText(p.entries))] && !m.isContextCompaction
    && (p.timestamp != "" ==> m.timestamp == p.timestamp)
  }

  /** Dated like its last contributor, or else like what follows. */
  predicate Dated(m: Message, p: Pending, fallback: string) {
    m.timestamp == if p.timestamp == "" then fallback else p.timestamp
  }

  lemma ExploredIsOne(p: Pending, fallback: string, number: nat)
    requires p.entries != []
    ensures |Explored(p, fallback, number)| == 1 && Announces(Explored(p, fallback, number)[0], p, number)
    ensures Dated(Explored(p, fallback, number)[0], p, fallback)
    ensures Only(Explored(p, fallback, number), false) == []
    ensures Only(Explored(p, fallback, number), true) == Explored(p, fallback, number)
  {
    ExploredIsShown(p.entries);
    var b := TextBlock(ExploredText(p.entries));
    assert [b][..0] == [];
    assert ShownBlocks([b]) == [b];
    OnlyOne(Explored(p, fallback, number)[0], false);
    OnlyOne(Explored(p, fallback, number)[0], true);
  }

  lemma ClosedLast(summarise: (string, string) -> string, runs: seq<seq<Item>>, fallback: string)
    requires runs != []
    ensures var front, last := runs[..|runs| - 1], runs[|runs| - 1];
            Closed(summarise, runs, fallback)
            == Closed(summarise, front, FirstTimestamp(last))
               + (RenderItems(last) + Explored(PendingOf(summarise, last), fallback, |Groups(summarise, front)| + 1))
  {
    var front, last := runs[..|runs| - 1], runs[|runs| - 1];
    Associate(Closed(summarise, front, FirstTimestamp(last)), RenderItems(last),
              Explored(PendingOf(summarise, last), fallback, |Groups(summarise, front)| + 1));
  }

  lemma Associate<T>(a: seq<T>, b: seq<T>, c: seq<T>)
    ensures a + b + c == a + (b + c)
  {
  }

  lemma StretchShown(last: seq<Item>, p: Pending, fallback: string, number: nat, explored: bool)
    ensures Only(RenderItems(last) + Explored(p, fallback, number), explored)
            == if explored then Explored(p, fallback, number) else RenderItems(last)
  {
    OnlyAppend(RenderItems(last), Explored(p, fallback, number), explored);
    RenderedArePlain(last);
    if p.entries != [] {
      ExploredIsOne(p, fallback, number);
    }
  }

  /** The messages of the last stretch, split off. */
  lemma ClosedParts(summarise: (string, string) -> string, runs: seq<seq<Item>>, fallback: string, explored: bool)
    requires runs != []
    ensures var front, last := runs[..|runs| - 1], runs[|runs| - 1];
            var p, n := PendingOf(summarise, last), |Groups(summarise, front)| + 1;
            Only(Closed(summarise, runs, fallback), explored)
            == Only(Closed(summarise, front, FirstTimestamp(last)), explored)
               + (if explored then Explored(p, fallback, n) else RenderItems(last))
  {
    var front, last := runs[..|runs| - 1], runs[|runs| - 1];
    var p, n := PendingOf(summarise, last), |Groups(summarise, front)| + 1;
    ClosedLast(summarise, runs, fallback);
    StretchShown(last, p, fallback, n, explored);
    OnlyAppend(Closed(summarise, front, FirstTimestamp(last)), RenderItems(last) + Explored(p, fallback, n), explored);
  }

  /** Erasing the explored messages leaves the messages of the items, in order. */
  lemma {:induction false} ErasingLeavesItems(summarise: (string, string) -> string, runs: seq<seq<Item>>, fallback: string)
    ensures Only(Closed(summarise, runs, fallback), false) == RenderItems(Concat(runs))
  {
    if runs != [] {
      var front, last := runs[..|runs| - 1], runs[|runs| - 1];
      ErasingLeavesItems(summarise, front, FirstTimestamp(last));
      ClosedParts(summarise, runs, fallback, false);
      RenderItemsAppend(Concat(front), last);
    }
  }

  predicate Announced(explored: seq<Message>, groups: seq<Pending>) {
    |explored| == |groups| && forall k :: 0 <= k < |groups| ==> Announces(explored[k], groups[k], k + 1)
  }

  lemma AnnouncedSnoc(explored: seq<Message>, groups: seq<Pending>, p: Pending, fallback: string)
    requires Announced(explored, groups)
    ensures Announced(explored + Explored(p, fallback, |groups| + 1), groups + if p.entries == [] then [] else [p])
  {
    if p.entries != [] {
      ExploredIsOne(p, fallback, |groups| + 1);
    }
  }

  /** The k-th explored message announces the k-th group. */
  lemma {:induction false} ExploredAnnounceGroups(summarise: (string, string) -> string, runs: seq<seq<Item>>, fallback: string)
    ensures Announced(Only(Closed(summarise, runs, fallback), true), Groups(summarise, runs))
  {
    if runs != [] {
      var front, last := runs[..|runs| - 1], runs[|runs| - 1];
      ExploredAnnounceGroups(summarise, front, FirstTimestamp(last));
      ClosedParts(summarise, runs, fallback, true);
      var p, n := PendingOf(summarise, last), |Groups(summarise, front)| + 1;
      AnnouncedSnoc(Only(Closed(summarise, front, FirstTimestamp(last)), true), Groups(summarise, front), p, fallback);
      assert Only(Closed(summarise, runs, fallback), true)
          == Only(Closed(summarise, front, FirstTimestamp(last)), true) + Explored(p, fallback, n);
    }
  }

  function EntriesOf(groups: seq<Pending>): seq<string> {
    if groups == [] then [] else EntriesOf(groups[..|groups| - 1]) + groups[|groups| - 1].entries
  }

  lemma {:induction false} PendingEntries(summarise: (string, string) -> string, run: seq<Item>)
    ensures PendingOf(summarise, run).entries == SummariesOf(summarise, run)
  {
    if run != [] {
      PendingEntries(summarise, run[..|run| - 1]);
    }
  }

  lemma {:induction false} GroupsHoldSummaries(summarise: (string, string) -> string, runs: seq<seq<Item>>)
    ensures EntriesOf(Groups(summarise, runs)) == SummariesOf(summarise, Concat(runs))
    ensures forall g :: g in Groups(summarise, runs) ==> g.entries != []
  {
    if runs != [] {
      var front, last := runs[..|runs| - 1], runs[|runs| - 1];
      GroupsHoldSummaries(summarise, front);
      PendingEntries(summarise, last);
      SummariesAppend(summarise, Concat(front), last);
      var groups, p := Groups(summarise, front), PendingOf(summarise, last);
      if p.entries != [] {
        assert (groups + [p])[..|groups|] == groups;
      } else {
        assert groups + [] == groups;
      }
    }
  }

  /** Dropping duplicates loses no tool call. */
  lemma {:induction false} DedupKeepsSummaries(parse: string -> Parsed, summarise: (string, string) -> string, items: seq<Item>)
    ensures SummariesOf(summarise, Dedup(parse, items)) == SummariesOf(summarise, items)
  {
    if items != [] {
      var front, it := items[..|items| - 1], items[|items| - 1];
      DedupKeepsSummaries(parse, summarise, front);
      if Dropped(parse, Remembered(parse, front), it) {
        assert it.content[..0] == [];
        assert Summaries(summarise, it.content) == [];
        assert Dedup(parse, front) + [] == Dedup(parse, front);
      } else {
        assert (Dedup(parse, front) + [it])[..|Dedup(parse, front)|] == Dedup(parse, front);
      }
    }
  }

  /** Content is conserved: the explored messages announce non-empty groups, numbered from 1, whose
      entries put together are exactly the non-blank tool summaries of all items in order, each once;
      and the other messages are exactly those of the items that are not duplicates, in order. */
  lemma {:induction false} RegroupingConserves(parse: string -> Parsed, summarise: (string, string) -> string, items: seq<Item>)
    ensures var kept := Dedup(parse, items);
            var out, groups := Regrouped(summarise, kept), Groups(summarise, Runs(kept));
            && EntriesOf(groups) == SummariesOf(summarise, items)
            && (forall g :: g in groups ==> g.entries != [])
            && Announced(Only(out, true), groups)
            && Only(out, false) == RenderItems(kept)
  {
    var kept := Dedup(parse, items);
    RunsShape(kept);
    GroupsHoldSummaries(summarise, Runs(kept));
    DedupKeepsSummaries(parse, summarise, items);
    ExploredAnnounceGroups(summarise, Runs(kept), "");
    ErasingLeavesItems(summarise, Runs(kept), "");
  }

  // ---- Where the explored messages stand ------------------------------------------------------

  /** Message `at` announces a group; without the explored messages, `before` comes before it and
      `after` after it. */
  predicate Stands(all: seq<Message>, at: nat, p: Pending, number: nat, before: seq<Message>, after: seq<Message>) {
    && at < |all| && Announces(all[at], p, number)
    && Only(all[..at], false) == before
    && Only(all[at + 1..], false) == after
  }

  lemma StandsLast(base: seq<Message>, p: Pending, fallback: string, number: nat)
    requires p.entries != []
    ensures Stands(base + Explored(p, fallback, number), |base|, p, number, Only(base, false), [])
    ensures Dated((base + Explored(p, fallback, number))[|base|], p, fallback)
  {
    ExploredIsOne(p, fallback, number);
    var all := base + Explored(p, fallback, number);
    assert all[..|base|] == base && all[|base| + 1..] == [];
  }

  lemma SplitAt<T>(base: seq<T>, more: seq<T>, at: nat)
    requires at < |base|
    ensures (base + more)[..at] == base[..at] && (base + more)[at] == base[at]
    ensures (base + more)[at + 1..] == base[at + 1..] + more
  {
  }

  lemma StandsStill(base: seq<Message>, more: seq<Message>, at: nat, p: Pending, number: nat, before: seq<Message>,
                    after: seq<Message>)
    requires Stands(base, at, p, number, before, after)
    ensures Stands(base + more, at, p, number, before, after + Only(more, false))
    ensures (base + more)[at] == base[at]
  {
    SplitAt(base, more, at);
    OnlyAppend(base[at + 1..], more, false);
  }

  lemma ItemsAfter(runs: seq<seq<Item>>, k: nat)
    requires k < |runs|
    ensures RenderItems(Concat(runs[k..])) == RenderItems(Concat(runs[..|runs| - 1][k..])) + RenderItems(runs[|runs| - 1])
  {
    var front, last, tail := runs[..|runs| - 1], runs[|runs| - 1], runs[k..];
    assert tail[..|tail| - 1] == front[k..] && tail[|tail| - 1] == last;
    RenderItemsAppend(Concat(front[k..]), last);
  }

  /** The timestamp of the item that follows stretch `k`, or `fallback` after the last one. */
  function Following(runs: seq<seq<Item>>, fallback: string, k: nat): string
    requires k < |runs|
  {
    if k == |runs| - 1 then fallback else FirstTimestamp(runs[k + 1])
  }

  /** Where the message that announces stretch `k` stands, and how it is dated. */
  predicate Separates(summarise: (string, string) -> string, runs: seq<seq<Item>>, fallback: string, all: seq<Message>,
                      k: nat, at: nat)
    requires k < |runs|
  {
    && Stands(all, at, PendingOf(summarise, runs[k]), |Groups(summarise, runs[..k])| + 1,
              RenderItems(Concat(runs[..k + 1])), RenderItems(Concat(runs[k + 1..])))
    && Dated(all[at], PendingOf(summarise, runs[k]), Following(runs, fallback, k))
  }

  lemma LastStretch(summarise: (string, string) -> string, runs: seq<seq<Item>>, fallback: string)
    returns (at: nat)
    requires runs != [] && PendingOf(summarise, runs[|runs| - 1]).entries != []
    ensures Separates(summarise, runs, fallback, Closed(summarise, runs, fallback), |runs| - 1, at)
  {
    var front, last := runs[..|runs| - 1], runs[|runs| - 1];
    var base := Closed(summarise, front, FirstTimestamp(last)) + RenderItems(last);
    at := |base|;
    StandsLast(base, PendingOf(summarise, last), fallback, |Groups(summarise, front)| + 1);
    OnlyAppend(Closed(summarise, front, FirstTimestamp(last)), RenderItems(last), false);
    RenderedArePlain(last);
    ErasingLeavesItems(summarise, front, FirstTimestamp(last));
    RenderItemsAppend(Concat(front), last);
    assert runs[..|runs| - 1 + 1] == runs && runs[|runs| - 1 + 1..] == [];
    assert RenderItems(Concat(runs[|runs| - 1 + 1..])) == [];
  }

  lemma FrontSlices<T>(runs: seq<T>, k: nat)
    requires k < |runs| - 1
    ensures var front := runs[..|runs| - 1];
            front[..k] == runs[..k] && front[..k + 1] == runs[..k + 1] && front[k] == runs[k]
  {
  }

  lemma LaterStands(summarise: (string, string) -> string, runs: seq<seq<Item>>, fallback: string, k: nat, at: nat)
    requires k < |runs| - 1
    requires var front, last := runs[..|runs| - 1], runs[|runs| - 1];
             Stands(Closed(summarise, front, FirstTimestamp(last)), at, PendingOf(summarise, front[k]),
                    |Groups(summarise, front[..k])| + 1, RenderItems(Concat(front[..k + 1])), RenderItems(Concat(front[k + 1..])))
    ensures Stands(Closed(summarise, runs, fallback), at, PendingOf(summarise, runs[k]), |Groups(summarise, runs[..k])| + 1,
                   RenderItems(Concat(runs[..k + 1])), RenderItems(Concat(runs[k + 1..])))
    ensures Closed(summarise, runs, fallback)[at]
            == Closed(summarise, runs[..|runs| - 1], FirstTimestamp(runs[|runs| - 1]))[at]
  {
    var front, last := runs[..|runs| - 1], runs[|runs| - 1];
    var n := |Groups(summarise, front)| + 1;
    var more := RenderItems(last) + Explored(PendingOf(summarise, last), fallback, n);
    StretchShown(last, PendingOf(summarise, last), fallback, n, false);
    ItemsAfter(runs, k + 1);
    ClosedLast(summarise, runs, fallback);
    FrontSlices(runs, k);
    StandsStill(Closed(summarise, front, FirstTimestamp(last)), more, at, PendingOf(summarise, runs[k]),
                |Groups(summarise, runs[..k])| + 1, RenderItems(Concat(runs[..k + 1])),
                RenderItems(Concat(front[k + 1..])));
  }

  lemma LaterFollowing(runs: seq<seq<Item>>, fallback: string, k: nat)
    requires k < |runs| - 1
    ensures Following(runs[..|runs| - 1], FirstTimestamp(runs[|runs| - 1]), k) == Following(runs, fallback, k)
    ensures runs[..|runs| - 1][k] == runs[k]
  {
  }

  lemma LaterStretch(summarise: (string, string) -> string, runs: seq<seq<Item>>, fallback: string, k: nat, at: nat)
    requires k < |runs| - 1
    requires var front, last := runs[..|runs| - 1], runs[|runs| - 1];
             Separates(summarise, front, FirstTimestamp(last), Closed(summarise, front, FirstTimestamp(last)), k, at)
    ensures Separates(summarise, runs, fallback, Closed(summarise, runs, fallback), k, at)
  {
    LaterStands(summarise, runs, fallback, k, at);
    LaterFollowing(runs, fallback, k);
  }

  lemma {:induction false} StretchIsAnnounced(summarise: (string, string) -> string, runs: seq<seq<Item>>, fallback: string, k: nat)
    returns (at: nat)
    requires k < |runs| && PendingOf(summarise, runs[k]).entries != []
    ensures Separates(summarise, runs, fallback, Closed(summarise, runs, fallback), k, at)
  {
    if k == |runs| - 1 {
      at := LastStretch(summarise, runs, fallback);
    } else {
      at := StretchIsAnnounced(summarise, runs[..|runs| - 1], FirstTimestamp(runs[|runs| - 1]), k);
      LaterStretch(summarise, runs, fallback, k, at);
    }
  }

  /** Each explored message stands right after its stretch: after every item it summarises, and before
      every later item. */
  lemma {:induction false} ExploredFollowsItsItems(summarise: (string, string) -> string, items: seq<Item>, k: nat)
    requires k < |Runs(items)| && SummariesOf(summarise, Runs(items)[k]) != []
    ensures exists at: nat :: Separates(summarise, Runs(items), "", Regrouped(summarise, items), k, at)
  {
    var runs := Runs(items);
    PendingEntries(summarise, runs[k]);
    var at := StretchIsAnnounced(summarise, runs, "", k);
    assert Separates(summarise, runs, "", Regrouped(summarise, items), k, at);
  }

  // ---- Numbering, order, pages ----------------------------------------------------------------

  function Numbered(all: seq<Message>): seq<Message> {
    seq(|all|, i requires 0 <= i < |all| => all[i].(id := i + 1))
  }

  function Reversed(all: seq<Message>): seq<Message> {
    seq(|all|, i requires 0 <= i < |all| => all[|all| - 1 - i])
  }

  /** Everything a session shows, in the order asked for. */
  function SessionMessages(parse: string -> Parsed, summarise: (string, string) -> string, items: seq<Item>, order: string)
    : seq<Message>
  {
    var all := Numbered(Regrouped(summarise, Dedup(parse, items)));
    if order == "desc" then Reversed(all) else all
  }

  function Step(limit: int): nat {
    if limit <= 0 then 50 else limit
  }

  function Page(all: seq<Message>, limit: int, offset: int): seq<Message> {
    var start := if offset < 0 then 0 else offset;
    var end := start + Step(limit);
    if start >= |all| then [] else all[start..if end > |all| then |all| else end]
  }

  method GetSessionMessages(parse: string -> Parsed, summarise: (string, string) -> string, items: seq<Item>,
                            limit: int, offset: int, order: string)
    returns (page: seq<Message>, total: nat)
    ensures page == Page(SessionMessages(parse, summarise, items, order), limit, offset)
    ensures total == |SessionMessages(parse, summarise, items, order)|
  {
    var kept := DedupCodexThinking(parse, items);
    var built := BuildMessages(summarise, kept);
    var all := Number(built);
    total := |all|;
    if total == 0 {
      return [], 0;
    }
    if order == "desc" {
      all := Reverse(all);
    }
    page := TakePage(all, limit, offset);
  }

  method TakePage(all: seq<Message>, limit: int, offset: int) returns (page: seq<Message>)
    ensures page == Page(all, limit, offset)
  {
    var step := if limit <= 0 then 50 else limit;
    var start := if offset < 0 then 0 else offset;
    if start >= |all| {
      return [];
    }
    var end := start + step;
    if end > |all| {
      end := |all|;
    }
    return all[start..end];
  }

  method Number(built: seq<Message>) returns (all: seq<Message>)
    ensures all == Numbered(built)
  {
    all := built;
    for i := 0 to |built|
      invariant |all| == |built|
      invariant forall j :: 0 <= j < i ==> all[j] == built[j].(id := j + 1)
      invariant forall j :: i <= j < |built| ==> all[j] == built[j]
    {
      all := all[i := all[i].(id := i + 1)];
    }
  }

  method Reverse(all: seq<Message>) returns (reversed: seq<Message>)
    ensures reversed == Reversed(all)
  {
    reversed := [];
    for i := 0 to |all|
      invariant |reversed| == i
      invariant forall j :: 0 <= j < i ==> reversed[j] == all[|all| - 1 - j]
    {
      reversed := reversed + [all[|all| - 1 - i]];
    }
  }

  /** The first pages, put together. */
  function Pages(all: seq<Message>, limit: int, count: nat): seq<Message> {
    if count == 0 then [] else Pages(all, limit, count - 1) + Page(all, limit, (count - 1) * Step(limit))
  }

  lemma NextPage(all: seq<Message>, limit: int, start: nat)
    ensures (if start >= |all| then all else all[..start]) + Page(all, limit, start)
            == if start + Step(limit) >= |all| then all else all[..start + Step(limit)]
  {
    if start < |all| {
      var end := if start + Step(limit) > |all| then |all| else start + Step(limit);
      assert all[..start] + all[start..end] == all[..end];
      assert all[..|all|] == all;
    }
  }

  /** Consecutive pages tile the list: the first `count` pages put together are the first
      `count` * limit messages, so nothing is skipped or shown twice. */
  lemma {:induction false} PagesTile(all: seq<Message>, limit: int, count: nat)
    ensures Pages(all, limit, count)
            == if count * Step(limit) >= |all| then all else all[..count * Step(limit)]
    decreases count
  {
    if count > 0 {
      PagesTile(all, limit, count - 1);
      OneStepMore(count, Step(limit));
      NextPage(all, limit, (count - 1) * Step(limit));
    }
  }

  lemma OneStepMore(count: nat, step: nat)
    requires count > 0
    ensures 0 <= (count - 1) * step && (count - 1) * step + step == count * step
  {
  }

  /** The messages from `low` up to `high`, as far as there are any. */
  function Stretch(all: seq<Message>, low: int, high: int): seq<Message> {
    var a := if low < 0 then 0 else if low > |all| then |all| else low;
    var b := if high < a then a else if high > |all| then |all| else high;
    all[a..b]
  }

  /** Paging newest first is paging the same numbered list from its end: page by page it shows the last
      messages, backwards, so the newest page never depends on how the older ones are paged. */
  lemma DescendingPages(parse: string -> Parsed, summarise: (string, string) -> string, items: seq<Item>, order: string,
                        limit: int, offset: nat)
    requires order != "desc"
    ensures var asc, desc := SessionMessages(parse, summarise, items, order), SessionMessages(parse, summarise, items, "desc");
            && Page(desc, limit, offset) == Reversed(Stretch(asc, |asc| - offset - Step(limit), |asc| - offset))
            && (forall i :: 0 <= i < |asc| ==> asc[i].id == i + 1)
  {
    PageOfReversed(SessionMessages(parse, summarise, items, order), limit, offset);
  }

  lemma PageOfReversed(all: seq<Message>, limit: int, offset: nat)
    ensures Page(Reversed(all), limit, offset) == Reversed(Stretch(all, |all| - offset - Step(limit), |all| - offset))
  {
    var page, stretch := Page(Reversed(all), limit, offset), Stretch(all, |all| - offset - Step(limit), |all| - offset);
    var n := |all|;
    if offset < n {
      var end := if offset + Step(limit) > n then n else offset + Step(limit);
      assert page == Reversed(all)[offset..end] && stretch == all[n - end..n - offset];
      forall i | 0 <= i < end - offset ensures page[i] == Reversed(stretch)[i] {
        assert page[i] == Reversed(all)[offset + i] == all[n - 1 - (offset + i)];
        assert Reversed(stretch)[i] == stretch[end - offset - 1 - i] == all[n - end + (end - offset - 1 - i)];
      }
    }
  }
}
