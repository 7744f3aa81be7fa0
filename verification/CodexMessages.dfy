/** The message list of a Codex session: items in order, with one explored message after each stretch
    of tool calls; then numbering, order and paging. */
module CodexMessages {

  import Text
  import opened Codex

  // ---- The list, described by its stretches --------------------------------------------------

  /** One more element: a part of its own, or the last part longer. */
  function Extended<T>(parts: seq<seq<T>>, it: T, cut: bool): seq<seq<T>> {
    if parts == [] || cut then parts + [[it]]
    else parts[..|parts| - 1] + [parts[|parts| - 1] + [it]]
  }

  /** The items cut before every item that is not tool calls only. */
  function Runs(items: seq<Item>): seq<seq<Item>> {
    if items == [] then []
    else Extended(Runs(items[..|items| - 1]), items[|items| - 1], ShouldFlush(items[|items| - 1]))
  }

  function Concat<T>(parts: seq<seq<T>>): seq<T> {
    if parts == [] then [] else Concat(parts[..|parts| - 1]) + parts[|parts| - 1]
  }

  /** The entries gathered so far, and the time and line of the last item that gave one. */
  datatype Pending = Pending(entries: seq<string>, timestamp: string, lastLine: int)

  const NOTHING := Pending([], "", 0)

  function Gather(summarise: (string, string) -> string, p: Pending, it: Item): Pending {
    var summaries := Summaries(summarise, it.content);
    if summaries == [] then p else Pending(p.entries + summaries, it.timestamp, it.line)
  }

  function PendingOf(summarise: (string, string) -> string, run: seq<Item>): Pending {
    if run == [] then NOTHING
    else Gather(summarise, PendingOf(summarise, run[..|run| - 1]), run[|run| - 1])
  }

  /** The explored message: the text of its entries, dated like the last contributor or, when that has
      no timestamp, like whatever follows. */
  function Explored(p: Pending, fallback: string, number: nat): seq<Message> {
    if p.entries == [] then []
    else
      var ts := if p.timestamp == "" then fallback else p.timestamp;
      RenderAs("assistant", [TextBlock(ExploredText(p.entries))], ts, p.lastLine, ExploredSuffix(number), false)
  }

  function Groups(summarise: (string, string) -> string, runs: seq<seq<Item>>): seq<Pending> {
    if runs == [] then []
    else
      var p := PendingOf(summarise, runs[|runs| - 1]);
      Groups(summarise, runs[..|runs| - 1]) + if p.entries == [] then [] else [p]
  }

  function FirstTimestamp(run: seq<Item>): string {
    if run == [] then "" else run[0].timestamp
  }

  /** The messages once every stretch is closed; `fallback` dates the last explored message. */
  function Closed(summarise: (string, string) -> string, runs: seq<seq<Item>>, fallback: string): seq<Message> {
    if runs == [] then []
    else
      var front, last := runs[..|runs| - 1], runs[|runs| - 1];
      Closed(summarise, front, FirstTimestamp(last)) + RenderItems(last)
      + Explored(PendingOf(summarise, last), fallback, |Groups(summarise, front)| + 1)
  }

  /** The whole list. */
  function Regrouped(summarise: (string, string) -> string, items: seq<Item>): seq<Message> {
    Closed(summarise, Runs(items), "")
  }

  // ---- The loop that builds it -----------------------------------------------------------------

  /** Where the loop stands: the messages so far, the entries not yet written, the explored messages
      written. */
  datatype Progress = Progress(all: seq<Message>, explored: Pending, exploredSeq: nat)

  function OpenAt(summarise: (string, string) -> string, runs: seq<seq<Item>>): Progress {
    if runs == [] then Progress([], NOTHING, 0)
    else
      var front, last := runs[..|runs| - 1], runs[|runs| - 1];
      Progress(Closed(summarise, front, FirstTimestamp(last)) + RenderItems(last), PendingOf(summarise, last),
               |Groups(summarise, front)|)
  }

  function Flushed(g: Progress, fallback: string): Progress {
    if g.explored.entries == [] then g
    else Progress(g.all + Explored(g.explored, fallback, g.exploredSeq + 1), NOTHING, g.exploredSeq + 1)
  }

  function Turn(summarise: (string, string) -> string, g: Progress, it: Item): Progress {
    var f := if ShouldFlush(it) then Flushed(g, it.timestamp) else g;
    Progress(f.all + RenderItem(it), Gather(summarise, f.explored, it), f.exploredSeq)
  }

  method AppendMessage(all: seq<Message>, role: string, blocks: seq<Block>, timestamp: string, line: int,
                       suffix: Suffix, compaction: bool)
    returns (more: seq<Message>)
    ensures more == all + RenderAs(role, blocks, timestamp, line, suffix, compaction)
  {
    if role != "user" && role != "assistant" {
      return all;
    }
    var content: seq<Block> := [];
    for i := 0 to |blocks|
      invariant content == ShownBlocks(blocks[..i])
    {
      assert blocks[..i + 1][..i] == blocks[..i];
      if Shown(blocks[i]) {
        content := content + [blocks[i]];
      }
    }
    assert blocks[..|blocks|] == blocks;
    if |content| == 0 {
      return all;
    }
    more := all + [Message(0, line, suffix, role, timestamp, content, compaction)];
  }

  method FlushExplored(g: Progress, fallback: string) returns (f: Progress)
    ensures f == Flushed(g, fallback)
  {
    if |g.explored.entries| == 0 {
      return g;
    }
    var ts := g.explored.timestamp;
    if ts == "" {
      ts := fallback;
    }
    var all := AppendMessage(g.all, "assistant", [TextBlock(ExploredText(g.explored.entries))], ts,
                             g.explored.lastLine, ExploredSuffix(g.exploredSeq + 1), false);
    return Progress(all, NOTHING, g.exploredSeq + 1);
  }

  method GatherSummaries(summarise: (string, string) -> string, p: Pending, it: Item) returns (q: Pending)
    ensures q == Gather(summarise, p, it)
  {
    q := p;
    var summaries := CollectCodexToolSummaries(summarise, it.content);
    for i := 0 to |summaries|
      invariant q == if i == 0 then p else Pending(p.entries + summaries[..i], it.timestamp, it.line)
    {
      assert summaries[i] in summaries;
      if Text.TrimSpace(summaries[i]) == "" {
        continue;
      }
      q := Pending(q.entries + [summaries[i]], it.timestamp, it.line);
      assert p.entries + summaries[..i] + [summaries[i]] == p.entries + summaries[..i + 1];
    }
    assert summaries[..|summaries|] == summaries;
  }

  lemma RunsSnoc(items: seq<Item>, it: Item)
    ensures Runs(items + [it]) == Extended(Runs(items), it, ShouldFlush(it))
  {
    assert (items + [it])[..|items|] == items;
  }

  lemma ConcatSnoc<T>(parts: seq<seq<T>>, last: seq<T>)
    ensures Concat(parts + [last]) == Concat(parts) + last
  {
    assert (parts + [last])[..|parts|] == parts;
  }

  lemma ConcatExtended<T>(parts: seq<seq<T>>, it: T, cut: bool)
    ensures Concat(Extended(parts, it, cut)) == Concat(parts) + [it]
  {
    if parts == [] || cut {
      ConcatSnoc(parts, [it]);
    } else {
      var front, last := parts[..|parts| - 1], parts[|parts| - 1];
      assert parts == front + [last];
      ConcatSnoc(front, last);
      ConcatSnoc(front, last + [it]);
    }
  }

  lemma {:induction false} RunsJoin(items: seq<Item>)
    ensures Concat(Runs(items)) == items
  {
    if items != [] {
      var front, it := items[..|items| - 1], items[|items| - 1];
      RunsJoin(front);
      ConcatExtended(Runs(front), it, ShouldFlush(it));
      assert items == front + [it];
    }
  }

  lemma NoneEmptyExtended<T>(parts: seq<seq<T>>, it: T, cut: bool)
    requires forall k :: 0 <= k < |parts| ==> parts[k] != []
    ensures Extended(parts, it, cut) != []
    ensures forall k :: 0 <= k < |Extended(parts, it, cut)| ==> Extended(parts, it, cut)[k] != []
  {
  }

  lemma {:induction false} NoRunEmpty(items: seq<Item>)
    ensures forall k :: 0 <= k < |Runs(items)| ==> Runs(items)[k] != []
    ensures items != [] ==> Runs(items) != []
  {
    if items != [] {
      NoRunEmpty(items[..|items| - 1]);
      NoneEmptyExtended(Runs(items[..|items| - 1]), items[|items| - 1], ShouldFlush(items[|items| - 1]));
    }
  }

  ghost predicate StartsFlushing(runs: seq<seq<Item>>, k: int) {
    0 <= k < |runs| && runs[k] != [] && ShouldFlush(runs[k][0])
  }

  lemma StartExtended(runs: seq<seq<Item>>, it: Item, k: int)
    requires forall j :: 0 <= j < |runs| ==> runs[j] != []
    requires 0 < k < |Extended(runs, it, ShouldFlush(it))| && (k < |runs| ==> StartsFlushing(runs, k))
    ensures StartsFlushing(Extended(runs, it, ShouldFlush(it)), k)
  {
  }

  lemma {:induction false} RunsStart(items: seq<Item>, k: int)
    requires 0 < k < |Runs(items)|
    ensures StartsFlushing(Runs(items), k)
  {
    if items != [] {
      var front := items[..|items| - 1];
      NoRunEmpty(front);
      if k < |Runs(front)| {
        RunsStart(front, k);
      }
      StartExtended(Runs(front), items[|items| - 1], k);
    }
  }

  lemma RunsShape(items: seq<Item>)
    ensures forall k :: 0 <= k < |Runs(items)| ==> Runs(items)[k] != []
    ensures items != [] ==> Runs(items) != []
    ensures Concat(Runs(items)) == items
    ensures forall k :: 0 < k < |Runs(items)| ==> StartsFlushing(Runs(items), k)
  {
    NoRunEmpty(items);
    RunsJoin(items);
    forall k | 0 < k < |Runs(items)| ensures StartsFlushing(Runs(items), k) {
      RunsStart(items, k);
    }
  }

  /** One turn of the loop keeps the list of the stretches seen so far, the last one open. */
  lemma TurnExtends(summarise: (string, string) -> string, items: seq<Item>)
    requires items != []
    ensures Turn(summarise, OpenAt(summarise, Runs(items[..|items| - 1])), items[|items| - 1])
            == OpenAt(summarise, Runs(items))
  {
    var runs, it := Runs(items[..|items| - 1]), items[|items| - 1];
    NoRunEmpty(items[..|items| - 1]);
    if runs == [] || ShouldFlush(it) {
      NewStretch(summarise, runs, it);
    } else {
      LongerStretch(summarise, runs[..|runs| - 1], runs[|runs| - 1], it);
      assert runs == runs[..|runs| - 1] + [runs[|runs| - 1]];
    }
  }

  lemma SingleRun(summarise: (string, string) -> string, it: Item)
    ensures RenderItems([it]) == RenderItem(it)
    ensures PendingOf(summarise, [it]) == Gather(summarise, NOTHING, it)
  {
    assert [it][..0] == [];
    assert RenderItems([]) + RenderItem(it) == RenderItem(it);
  }

  lemma FlushCloses(summarise: (string, string) -> string, runs: seq<seq<Item>>, fallback: string)
    requires runs != []
    ensures var f := Flushed(OpenAt(summarise, runs), fallback);
            f == Progress(Closed(summarise, runs, fallback), NOTHING, |Groups(summarise, runs)|)
  {
    NoEntriesNothing(summarise, runs[|runs| - 1]);
  }

  lemma {:induction false} NoEntriesNothing(summarise: (string, string) -> string, run: seq<Item>)
    ensures PendingOf(summarise, run).entries == [] ==> PendingOf(summarise, run) == NOTHING
  {
    if run != [] {
      NoEntriesNothing(summarise, run[..|run| - 1]);
    }
  }

  lemma NothingOpen(summarise: (string, string) -> string, runs: seq<seq<Item>>, it: Item)
    requires runs == [] || ShouldFlush(it)
    requires runs != [] ==> Flushed(OpenAt(summarise, runs), it.timestamp)
                            == Progress(Closed(summarise, runs, it.timestamp), NOTHING, |Groups(summarise, runs)|)
    ensures Turn(summarise, OpenAt(summarise, runs), it)
            == Progress(Closed(summarise, runs, it.timestamp) + RenderItem(it), Gather(summarise, NOTHING, it),
                        |Groups(summarise, runs)|)
  {
    if runs == [] {
      assert Flushed(OpenAt(summarise, runs), it.timestamp) == Progress([], NOTHING, 0);
    }
  }

  lemma NewStretch(summarise: (string, string) -> string, runs: seq<seq<Item>>, it: Item)
    requires runs == [] || ShouldFlush(it)
    ensures Turn(summarise, OpenAt(summarise, runs), it) == OpenAt(summarise, runs + [[it]])
  {
    var longer := runs + [[it]];
    assert longer[..|longer| - 1] == runs && longer[|longer| - 1] == [it];
    SingleRun(summarise, it);
    var closed := Closed(summarise, runs, it.timestamp);
    assert OpenAt(summarise, longer)
        == Progress(closed + RenderItem(it), Gather(summarise, NOTHING, it), |Groups(summarise, runs)|);
    if runs != [] {
      FlushCloses(summarise, runs, it.timestamp);
    }
    NothingOpen(summarise, runs, it);
  }

  lemma LongerStretch(summarise: (string, string) -> string, front: seq<seq<Item>>, last: seq<Item>, it: Item)
    requires last != [] && !ShouldFlush(it)
    ensures Turn(summarise, OpenAt(summarise, front + [last]), it) == OpenAt(summarise, front + [last + [it]])
  {
    assert (front + [last])[..|front|] == front && (front + [last + [it]])[..|front|] == front;
    assert (last + [it])[..|last|] == last;
    var start := Closed(summarise, front, FirstTimestamp(last));
    assert start + RenderItems(last) + RenderItem(it) == start + (RenderItems(last) + RenderItem(it));
  }

  /** One turn of the loop: flush if the item asks for it, gather its summaries, append its message. */
  method TakeTurn(summarise: (string, string) -> string, g: Progress, it: Item) returns (h: Progress)
    ensures h == Turn(summarise, g, it)
  {
    h := g;
    var flush := ShouldFlushCodexExploredBeforeItem(it);
    if flush {
      h := FlushExplored(h, it.timestamp);
    }
    var explored := GatherSummaries(summarise, h.explored, it);
    var all := AppendMessage(h.all, it.role, it.content, it.timestamp, it.line, NoSuffix, it.isContextCompaction);
    h := Progress(all, explored, h.exploredSeq);
  }

  /** All turns of the loop. */
  function Turns(summarise: (string, string) -> string, items: seq<Item>): Progress {
    if items == [] then Progress([], NOTHING, 0)
    else Turn(summarise, Turns(summarise, items[..|items| - 1]), items[|items| - 1])
  }

  lemma {:induction false} TurnsKeepOpen(summarise: (string, string) -> string, items: seq<Item>)
    ensures Turns(summarise, items) == OpenAt(summarise, Runs(items))
  {
    if items != [] {
      TurnsKeepOpen(summarise, items[..|items| - 1]);
      TurnExtends(summarise, items);
    }
  }

  /** After the last flush the list is complete. */
  lemma LastFlush(summarise: (string, string) -> string, items: seq<Item>)
    ensures Flushed(Turns(summarise, items), "").all == Regrouped(summarise, items)
  {
    TurnsKeepOpen(summarise, items);
    if Runs(items) != [] {
      FlushCloses(summarise, Runs(items), "");
    }
  }

  method BuildMessages(summarise: (string, string) -> string, items: seq<Item>) returns (all: seq<Message>)
    ensures all == Regrouped(summarise, items)
  {
    var g := Progress([], NOTHING, 0);
    for i := 0 to |items|
      invariant g == Turns(summarise, items[..i])
    {
      assert items[..i + 1][..i] == items[..i];
      g := TakeTurn(summarise, g, items[i]);
    }
    assert items[..|items|] == items;
    LastFlush(summarise, items);
    g := FlushExplored(g, "");
    all := g.all;
  }
}
