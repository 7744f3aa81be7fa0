/** What a Codex session shows, told item by item and block by block: which items and blocks appear, which
    thinking is dropped, where the items are cut, what each explored message says and how it is dated. */
module CodexLaws {

  import Text
  import TextLaws
  import opened Selections
  import opened Codex
  import opened CodexMessages
  import opened CodexProperties

  // ---- Which blocks and items appear ------------------------------------------------------------

  ghost predicate HasInk(s: string) {
    exists c :: c in s && !Text.IsSpace(c)
  }

  lemma InkMeans(s: string)
    ensures HasInk(s) <==> !Text.Blank(s)
  {
    TextLaws.BlankMeans(s);
  }

  /** Text, thinking and tool results with ink, and tool calls with a name. */
  ghost predicate Appears(b: Block) {
    || (b.TextBlock? && HasInk(b.text))
    || (b.Thinking? && HasInk(b.text))
    || (b.ToolUse? && b.toolName != "")
    || (b.ToolResult? && HasInk(b.content))
  }

  lemma ShownMeans(b: Block)
    ensures Shown(b) <==> Appears(b)
  {
    match b
    case TextBlock(text) => InkMeans(text);
    case Thinking(text) => InkMeans(text);
    case ToolResult(_, content, _) => InkMeans(content);
    case _ =>
  }

  lemma ShownOne(blocks: seq<Block>, n: nat)
    requires n < |blocks|
    ensures ShownBlocks(blocks[..n + 1]) == ShownBlocks(blocks[..n]) + if Appears(blocks[n]) then [blocks[n]] else []
  {
    ShownMeans(blocks[n]);
    assert blocks[..n + 1][..n] == blocks[..n];
  }

  lemma {:induction false} ShownBelow(blocks: seq<Block>, n: nat)
    requires n <= |blocks|
    ensures Picks(blocks, PositionsBelow(blocks, Appears, n), ShownBlocks(blocks[..n]))
  {
    if n > 0 {
      ShownBelow(blocks, n - 1);
      ShownOne(blocks, n - 1);
      PicksNext(blocks, Appears, n - 1, ShownBlocks(blocks[..n - 1]));
    }
  }

  /** The blocks shown are those that appear, each once, in order. */
  lemma {:induction false} ShownBlocksMean(blocks: seq<Block>) returns (js: seq<int>)
    ensures SelectsThose(blocks, Appears, js, ShownBlocks(blocks))
  {
    js := PositionsBelow(blocks, Appears, |blocks|);
    PositionsMean(blocks, Appears);
    ShownBelow(blocks, |blocks|);
    assert blocks[..|blocks|] == blocks;
  }

  /** A message and the item it presents. */
  ghost predicate Presents(m: Message, it: Item) {
    && m.role == it.role && m.timestamp == it.timestamp && m.line == it.line
    && m.suffix == NoSuffix && m.isContextCompaction == it.isContextCompaction
    && m.content == ShownBlocks(it.content)
  }

  /** An item of the user or the assistant with something to show. */
  ghost predicate HasMessage(it: Item) {
    (it.role == "user" || it.role == "assistant") && exists b :: b in it.content && Appears(b)
  }

  lemma RenderItemMeans(it: Item)
    ensures if HasMessage(it) then |RenderItem(it)| == 1 && Presents(RenderItem(it)[0], it) else RenderItem(it) == []
  {
    var js := ShownBlocksMean(it.content);
    if b :| b in it.content && Appears(b) {
      var i :| 0 <= i < |it.content| && it.content[i] == b;
      assert i in js;
    }
    if ShownBlocks(it.content) != [] {
      assert js[0] in js;
    }
  }

  /** These messages present the items at these positions. */
  ghost predicate PresentAt(items: seq<Item>, js: seq<int>, messages: seq<Message>) {
    |messages| == |js| && forall k :: 0 <= k < |js| ==> 0 <= js[k] < |items| && Presents(messages[k], items[js[k]])
  }

  ghost predicate IsRendered(property: Item -> bool, it: Item) {
    if property(it) then |RenderItem(it)| == 1 && Presents(RenderItem(it)[0], it) else RenderItem(it) == []
  }

  lemma PresentNext(items: seq<Item>, property: Item -> bool, n: nat, messages: seq<Message>)
    requires n < |items| && IsRendered(property, items[n])
    requires PresentAt(items, PositionsBelow(items, property, n), messages)
    ensures PresentAt(items, PositionsBelow(items, property, n + 1), messages + RenderItem(items[n]))
  {
    if property(items[n]) {
      assert RenderItem(items[n]) == [RenderItem(items[n])[0]];
    } else {
      assert messages + RenderItem(items[n]) == messages;
    }
  }

  lemma RenderItemsOne(items: seq<Item>, n: nat)
    requires n < |items|
    ensures RenderItems(items[..n + 1]) == RenderItems(items[..n]) + RenderItem(items[n])
  {
    assert items[..n + 1][..n] == items[..n];
  }

  lemma {:induction false} RenderedBelow(items: seq<Item>, property: Item -> bool, n: nat)
    requires n <= |items| && forall it :: IsRendered(property, it)
    ensures PresentAt(items, PositionsBelow(items, property, n), RenderItems(items[..n]))
  {
    if n > 0 {
      RenderedBelow(items, property, n - 1);
      RenderItemsOne(items, n - 1);
      PresentNext(items, property, n - 1, RenderItems(items[..n - 1]));
    }
  }

  /** The item messages are one for each item that has something to show, in order. */
  lemma {:induction false} MessagesMean(items: seq<Item>) returns (js: seq<int>)
    ensures Positions(items, HasMessage, js)
    ensures PresentAt(items, js, RenderItems(items))
  {
    js := PositionsBelow(items, HasMessage, |items|);
    PositionsMean(items, HasMessage);
    forall it ensures IsRendered(HasMessage, it) {
      RenderItemMeans(it);
    }
    RenderedBelow(items, HasMessage, |items|);
    assert items[..|items|] == items;
  }

  ghost function OfKind(explored: bool): Message -> bool {
    (m: Message) => m.suffix.ExploredSuffix? == explored
  }

  lemma OnlyNext(all: seq<Message>, explored: bool, n: nat)
    requires n < |all|
    ensures Only(all[..n + 1], explored) == Only(all[..n], explored) + if OfKind(explored)(all[n]) then [all[n]] else []
  {
    assert all[..n + 1][..n] == all[..n];
  }

  lemma {:induction false} OnlyBelow(all: seq<Message>, explored: bool, n: nat)
    requires n <= |all|
    ensures Picks(all, PositionsBelow(all, OfKind(explored), n), Only(all[..n], explored))
  {
    if n > 0 {
      OnlyBelow(all, explored, n - 1);
      OnlyNext(all, explored, n - 1);
      PicksNext(all, OfKind(explored), n - 1, Only(all[..n - 1], explored));
    }
  }

  /** Telling the explored messages from the others. */
  lemma {:induction false} OnlyMeans(all: seq<Message>, explored: bool) returns (js: seq<int>)
    ensures SelectsThose(all, OfKind(explored), js, Only(all, explored))
  {
    js := PositionsBelow(all, OfKind(explored), |all|);
    PositionsMean(all, OfKind(explored));
    OnlyBelow(all, explored, |all|);
    assert all[..|all|] == all;
  }

  // ---- Which summaries there are ------------------------------------------------------------------

  /** A tool call whose summary has ink. */
  ghost predicate Explains(summarise: (string, string) -> string, b: Block) {
    b.ToolUse? && HasInk(summarise(b.toolName, b.toolInput))
  }

  datatype Place = Place(item: int, block: int)

  ghost predicate Earlier(p: Place, q: Place) {
    p.item < q.item || (p.item == q.item && p.block < q.block)
  }

  ghost predicate Rising(ps: seq<Place>) {
    forall i, j :: 0 <= i < j < |ps| ==> Earlier(ps[i], ps[j])
  }

  ghost predicate ExplainsAt(summarise: (string, string) -> string, items: seq<Item>, p: Place) {
    && 0 <= p.item < |items| && 0 <= p.block < |items[p.item].content|
    && Explains(summarise, items[p.item].content[p.block])
  }

  predicate HasCall(items: seq<Item>, p: Place) {
    0 <= p.item < |items| && 0 <= p.block < |items[p.item].content| && items[p.item].content[p.block].ToolUse?
  }

  function SummaryAt(summarise: (string, string) -> string, items: seq<Item>, p: Place): string
    requires HasCall(items, p)
  {
    summarise(items[p.item].content[p.block].toolName, items[p.item].content[p.block].toolInput)
  }

  /** The entries are the summaries of the tool calls at these places. */
  ghost predicate SummariesAt(summarise: (string, string) -> string, items: seq<Item>, ps: seq<Place>, entries: seq<string>) {
    && |entries| == |ps|
    && (forall k :: 0 <= k < |ps| ==> HasCall(items, ps[k]) && entries[k] == SummaryAt(summarise, items, ps[k]))
  }

  ghost function Explaining(summarise: (string, string) -> string): Block -> bool {
    (b: Block) => Explains(summarise, b)
  }

  /** The entries are the summaries of the tool calls at these positions. */
  ghost predicate SummariesIn(summarise: (string, string) -> string, blocks: seq<Block>, js: seq<int>, entries: seq<string>) {
    && |entries| == |js|
    && (forall k :: 0 <= k < |js| ==> 0 <= js[k] < |blocks| && blocks[js[k]].ToolUse?)
    && (forall k :: 0 <= k < |js| ==> entries[k] == summarise(blocks[js[k]].toolName, blocks[js[k]].toolInput))
  }

  function SummaryOf(summarise: (string, string) -> string, b: Block): seq<string> {
    if b.ToolUse? && !Text.Blank(summarise(b.toolName, b.toolInput)) then [summarise(b.toolName, b.toolInput)] else []
  }

  ghost predicate TellsSummaries(summarise: (string, string) -> string, property: Block -> bool, b: Block) {
    property(b) <==> SummaryOf(summarise, b) != []
  }

  lemma EntriesNext(summarise: (string, string) -> string, property: Block -> bool, blocks: seq<Block>, n: nat,
                    entries: seq<string>)
    requires n < |blocks| && TellsSummaries(summarise, property, blocks[n])
    requires SummariesIn(summarise, blocks, PositionsBelow(blocks, property, n), entries)
    ensures SummariesIn(summarise, blocks, PositionsBelow(blocks, property, n + 1), entries + SummaryOf(summarise, blocks[n]))
  {
    assert entries + [] == entries;
  }

  lemma SummariesOne(summarise: (string, string) -> string, blocks: seq<Block>, n: nat)
    requires n < |blocks|
    ensures Summaries(summarise, blocks[..n + 1]) == Summaries(summarise, blocks[..n]) + SummaryOf(summarise, blocks[n])
  {
    assert blocks[..n + 1][..n] == blocks[..n];
  }

  lemma {:induction false} SummariesBelow(summarise: (string, string) -> string, property: Block -> bool,
                                          blocks: seq<Block>, n: nat)
    requires n <= |blocks| && forall b :: TellsSummaries(summarise, property, b)
    ensures SummariesIn(summarise, blocks, PositionsBelow(blocks, property, n), Summaries(summarise, blocks[..n]))
  {
    if n > 0 {
      SummariesBelow(summarise, property, blocks, n - 1);
      SummariesOne(summarise, blocks, n - 1);
      EntriesNext(summarise, property, blocks, n - 1, Summaries(summarise, blocks[..n - 1]));
    }
  }

  /** The summaries of one item. */
  lemma {:induction false} SummariesMean(summarise: (string, string) -> string, blocks: seq<Block>) returns (js: seq<int>)
    ensures Positions(blocks, Explaining(summarise), js)
    ensures SummariesIn(summarise, blocks, js, Summaries(summarise, blocks))
  {
    js := PositionsBelow(blocks, Explaining(summarise), |blocks|);
    PositionsMean(blocks, Explaining(summarise));
    forall b ensures TellsSummaries(summarise, Explaining(summarise), b) {
      if b.ToolUse? {
        InkMeans(summarise(b.toolName, b.toolInput));
      }
    }
    SummariesBelow(summarise, Explaining(summarise), blocks, |blocks|);
    assert blocks[..|blocks|] == blocks;
  }

  function PlacesIn(item: int, js: seq<int>): (ps: seq<Place>)
    ensures |ps| == |js| && forall k :: 0 <= k < |js| ==> ps[k] == Place(item, js[k])
  {
    if js == [] then [] else PlacesIn(item, js[..|js| - 1]) + [Place(item, js[|js| - 1])]
  }

  lemma PlacesInHas(item: int, js: seq<int>, p: Place)
    ensures p in PlacesIn(item, js) <==> p.item == item && p.block in js
  {
    var ps := PlacesIn(item, js);
    if p.item == item && p.block in js {
      var k :| 0 <= k < |js| && js[k] == p.block;
      assert ps[k] == p;
    }
  }

  lemma RisingTogether(before: seq<Place>, n: int, js: seq<int>)
    requires Rising(before) && (forall k :: 0 <= k < |before| ==> before[k].item < n) && Increasing(js)
    ensures Rising(before + PlacesIn(n, js))
  {
  }

  lemma SummariesStay(summarise: (string, string) -> string, front: seq<Item>, it: Item, ps: seq<Place>, entries: seq<string>)
    requires SummariesAt(summarise, front, ps, entries)
    ensures SummariesAt(summarise, front + [it], ps, entries)
  {
  }

  lemma SummariesAdded(summarise: (string, string) -> string, front: seq<Item>, it: Item, js: seq<int>, entries: seq<string>)
    requires SummariesIn(summarise, it.content, js, entries)
    ensures SummariesAt(summarise, front + [it], PlacesIn(|front|, js), entries)
  {
    var items, ps := front + [it], PlacesIn(|front|, js);
    assert items[|front|] == it;
    forall k | 0 <= k < |ps| ensures HasCall(items, ps[k]) && entries[k] == SummaryAt(summarise, items, ps[k]) {
      assert ps[k] == Place(|front|, js[k]);
      assert it.content[js[k]].ToolUse?;
    }
  }

  lemma SummariesTogether(summarise: (string, string) -> string, items: seq<Item>, ps: seq<Place>, a: seq<string>,
                          qs: seq<Place>, b: seq<string>)
    requires SummariesAt(summarise, items, ps, a) && SummariesAt(summarise, items, qs, b)
    ensures SummariesAt(summarise, items, ps + qs, a + b)
  {
  }

  lemma ExplainsLonger(summarise: (string, string) -> string, front: seq<Item>, it: Item, p: Place)
    ensures ExplainsAt(summarise, front + [it], p)
            <==> ExplainsAt(summarise, front, p)
                 || (p.item == |front| && 0 <= p.block < |it.content| && Explains(summarise, it.content[p.block]))
  {
  }

  lemma SummariesOfSnoc(summarise: (string, string) -> string, front: seq<Item>, it: Item)
    ensures SummariesOf(summarise, front + [it]) == SummariesOf(summarise, front) + Summaries(summarise, it.content)
  {
    assert (front + [it])[..|front|] == front;
  }

  /** Rising places, all those where something is explained. */
  ghost predicate AllPlaces(summarise: (string, string) -> string, items: seq<Item>, ps: seq<Place>) {
    Rising(ps) && forall p :: p in ps <==> ExplainsAt(summarise, items, p)
  }

  lemma AllPlacesNext(summarise: (string, string) -> string, front: seq<Item>, it: Item, ps: seq<Place>, js: seq<int>)
    requires AllPlaces(summarise, front, ps) && Positions(it.content, Explaining(summarise), js)
    ensures AllPlaces(summarise, front + [it], ps + PlacesIn(|front|, js))
  {
    var added := PlacesIn(|front|, js);
    forall k | 0 <= k < |ps| ensures ps[k].item < |front| {
      assert ps[k] in ps;
    }
    RisingTogether(ps, |front|, js);
    forall p ensures p in ps + added <==> ExplainsAt(summarise, front + [it], p) {
      PlacesInHas(|front|, js, p);
      ExplainsLonger(summarise, front, it, p);
    }
  }

  /** The summaries of a list of items: of every tool call whose summary has ink, item by item and block
      by block, each once. */
  lemma {:induction false} AllSummariesMean(summarise: (string, string) -> string, items: seq<Item>) returns (ps: seq<Place>)
    ensures AllPlaces(summarise, items, ps)
    ensures SummariesAt(summarise, items, ps, SummariesOf(summarise, items))
  {
    ps := [];
    if items != [] {
      var front, it := items[..|items| - 1], items[|items| - 1];
      ps := AllSummariesMean(summarise, front);
      var js := SummariesMean(summarise, it.content);
      AllPlacesNext(summarise, front, it, ps, js);
      SummariesStay(summarise, front, it, ps, SummariesOf(summarise, front));
      SummariesAdded(summarise, front, it, js, Summaries(summarise, it.content));
      SummariesTogether(summarise, front + [it], ps, SummariesOf(summarise, front), PlacesIn(|front|, js),
                        Summaries(summarise, it.content));
      SummariesOfSnoc(summarise, front, it);
      assert items == front + [it];
      ps := ps + PlacesIn(|front|, js);
    }
  }

  // ---- Where the items are cut ----------------------------------------------------------------------

  /** An item before which the explored message so far is written: not the assistant's, or with a block
      that is neither a tool call nor a tool result. */
  ghost predicate Breaks(it: Item) {
    it.role != "assistant" || exists b :: b in it.content && !b.ToolUse? && !b.ToolResult?
  }

  lemma BreaksMeans(it: Item)
    ensures Breaks(it) <==> ShouldFlush(it)
  {
    if b :| b in it.content && !b.ToolUse? && !b.ToolResult? {
      var i :| 0 <= i < |it.content| && it.content[i] == b;
      assert !ToolBlock(it.content[i]);
    }
  }

  /** The stretches run from one cut to the next; the cuts between the ends stand before exactly the items
      that break, the first item aside. */
  ghost predicate StretchesAt(items: seq<Item>, cuts: seq<int>) {
    && (items == [] ==> cuts == [0])
    && (items != [] ==> Cuts(cuts, |items|))
    && forall i :: 0 < i < |items| ==> (i in cuts <==> Breaks(items[i]))
  }

  /** Stretch `k` runs from one cut to the next. */
  ghost predicate Piece<T>(whole: seq<T>, cuts: seq<int>, parts: seq<seq<T>>, k: int) {
    0 <= k < |parts| && k + 1 < |cuts| && 0 <= cuts[k] < cuts[k + 1] <= |whole| && parts[k] == whole[cuts[k]..cuts[k + 1]]
  }

  ghost predicate CutAt<T>(whole: seq<T>, cuts: seq<int>, parts: seq<seq<T>>) {
    |cuts| == |parts| + 1 && forall k :: 0 <= k < |parts| ==> Piece(whole, cuts, parts, k)
  }

  lemma CutsBelow(cuts: seq<int>, n: nat)
    requires Cuts(cuts, n)
    ensures forall c :: c in cuts ==> 0 <= c <= n
  {
  }

  /** The stretches of a list of items. */
  lemma {:induction false} RunsMean(items: seq<Item>) returns (cuts: seq<int>)
    ensures StretchesAt(items, cuts) && CutAt(items, cuts, Runs(items))
  {
    cuts := [0];
    if items != [] {
      var front, it := items[..|items| - 1], items[|items| - 1];
      var before := RunsMean(front);
      BreaksMeans(it);
      assert items == front + [it];
      if front == [] {
        cuts := [0, 1];
        assert Runs(items) == [[it]] && items == [it];
      } else {
        CutsBelow(before, |front|);
        RunsShape(front);
        cuts := if Breaks(it) then before + [|items|] else before[..|before| - 1] + [|items|];
        NextCut(front, it, before, cuts);
        StretchesGrow(front, it, before, cuts);
      }
    }
  }

  lemma StretchesGrow(front: seq<Item>, it: Item, before: seq<int>, cuts: seq<int>)
    requires front != [] && StretchesAt(front, before)
    requires cuts == if Breaks(it) then before + [|front| + 1] else before[..|before| - 1] + [|front| + 1]
    ensures StretchesAt(front + [it], cuts)
  {
    CutsBelow(before, |front|);
    var items := front + [it];
    assert before == before[..|before| - 1] + [|front|];
    forall i | 0 < i < |items| ensures i in cuts <==> Breaks(items[i]) {
      if i < |front| {
        assert items[i] == front[i];
        assert i in before <==> i in before[..|before| - 1];
      } else {
        LastOnce(before, |front|);
      }
    }
  }

  lemma LastOnce(cuts: seq<int>, n: nat)
    requires Cuts(cuts, n)
    ensures n !in cuts[..|cuts| - 1]
  {
  }

  /** A new stretch of one item, or the last stretch longer by one item. */
  lemma CutNew<T>(front: seq<T>, it: T, before: seq<int>, parts: seq<seq<T>>)
    requires CutAt(front, before, parts) && before[|parts|] == |front|
    ensures CutAt(front + [it], before + [|front| + 1], parts + [[it]])
  {
    var whole, cuts, more := front + [it], before + [|front| + 1], parts + [[it]];
    forall k | 0 <= k < |more| ensures Piece(whole, cuts, more, k) {
      if k < |parts| {
        assert Piece(front, before, parts, k);
        assert whole[before[k]..before[k + 1]] == front[before[k]..before[k + 1]];
      } else {
        assert whole[|front|..|front| + 1] == [it];
      }
    }
  }

  lemma CutLonger<T>(front: seq<T>, it: T, before: seq<int>, parts: seq<seq<T>>)
    requires CutAt(front, before, parts) && parts != [] && before[|parts|] == |front|
    ensures CutAt(front + [it], before[..|parts|] + [|front| + 1], parts[..|parts| - 1] + [parts[|parts| - 1] + [it]])
  {
    var n := |parts| - 1;
    var whole, cuts, more := front + [it], before[..n + 1] + [|front| + 1], parts[..n] + [parts[n] + [it]];
    forall k | 0 <= k < |more| ensures Piece(whole, cuts, more, k) {
      assert Piece(front, before, parts, k);
      if k < n {
        assert whole[before[k]..before[k + 1]] == front[before[k]..before[k + 1]];
      } else {
        assert whole[before[n]..|front| + 1] == front[before[n]..|front|] + [it];
      }
    }
  }

  lemma NextCut(front: seq<Item>, it: Item, before: seq<int>, cuts: seq<int>)
    requires front != [] && Runs(front) != [] && StretchesAt(front, before) && CutAt(front, before, Runs(front))
    requires cuts == if Breaks(it) then before + [|front| + 1] else before[..|before| - 1] + [|front| + 1]
    ensures CutAt(front + [it], cuts, Runs(front + [it]))
  {
    RunsSnoc(front, it);
    BreaksMeans(it);
    CutNew(front, it, before, Runs(front));
    CutLonger(front, it, before, Runs(front));
  }

  // ---- What an explored message says ------------------------------------------------------------------

  /** A heading and one line for each entry, a branch before it, the last one closing the tree. */
  ghost predicate LaidOut(lines: seq<string>, entries: seq<string>) {
    && |lines| == |entries| + 1 && lines[0] == "**Explored**"
    && forall i :: 0 <= i < |entries| ==>
         lines[i + 1] == (if i == |entries| - 1 then "\U{2514} " else "\U{251C} ") + entries[i]
  }

  lemma ExploredTextMeans(entries: seq<string>) returns (lines: seq<string>)
    requires entries != []
    ensures LaidOut(lines, entries) && ExploredText(entries) == Text.Join(lines, '\n')
  {
    MarkedShape(entries, true);
    lines := [EXPLORED] + Marked(entries, true);
  }

  /** The item of a stretch that gave the last entry. */
  ghost predicate LastToExplain(summarise: (string, string) -> string, run: seq<Item>, i: int) {
    && 0 <= i < |run| && (exists b :: b in run[i].content && Explains(summarise, b))
    && forall j, b :: i < j < |run| && b in run[j].content ==> !Explains(summarise, b)
  }

  lemma GivesEntry(summarise: (string, string) -> string, it: Item)
    ensures Summaries(summarise, it.content) != [] <==> exists b :: b in it.content && Explains(summarise, b)
  {
    var js := SummariesMean(summarise, it.content);
    if b :| b in it.content && Explains(summarise, b) {
      var j :| 0 <= j < |it.content| && it.content[j] == b;
      assert j in js;
    }
    if js != [] {
      assert js[0] in js;
    }
  }

  lemma {:induction false} PendingOfMeans(summarise: (string, string) -> string, run: seq<Item>) returns (i: int)
    requires SummariesOf(summarise, run) != []
    ensures LastToExplain(summarise, run, i)
    ensures PendingOf(summarise, run) == Pending(SummariesOf(summarise, run), run[i].timestamp, run[i].line)
  {
    var front, it := run[..|run| - 1], run[|run| - 1];
    GivesEntry(summarise, it);
    PendingEntries(summarise, run);
    PendingEntries(summarise, front);
    assert run == front + [it];
    if Summaries(summarise, it.content) != [] {
      i := |run| - 1;
    } else {
      assert SummariesOf(summarise, front) + [] == SummariesOf(summarise, front);
      i := PendingOfMeans(summarise, front);
    }
  }

  /** An explored message for these entries, given by the items of a stretch. */
  ghost predicate Tells(summarise: (string, string) -> string, m: Message, run: seq<Item>, following: string, number: nat) {
    && m.role == "assistant" && m.suffix == ExploredSuffix(number) && !m.isContextCompaction
    && m.content == [TextBlock(ExploredText(SummariesOf(summarise, run)))]
    && exists i :: LastToExplain(summarise, run, i) && m.line == run[i].line
                   && m.timestamp == if run[i].timestamp == "" then following else run[i].timestamp
  }

  lemma {:induction false} ConcatOfCuts(items: seq<Item>, cuts: seq<int>, runs: seq<seq<Item>>)
    requires CutAt(items, cuts, runs) && runs != []
    ensures 0 <= cuts[0] < cuts[|runs|] <= |items|
    ensures Concat(runs) == items[cuts[0]..cuts[|runs|]]
  {
    var n := |runs| - 1;
    var front := runs[..n];
    assert Piece(items, cuts, runs, n);
    if n == 0 {
      assert Concat(front) == [];
      assert Concat(runs) == [] + runs[0];
    } else {
      CutFront(items, cuts, runs, n);
      ConcatOfCuts(items, cuts[..n + 1], front);
      Adjoin(items, cuts[0], cuts[n], cuts[n + 1]);
    }
  }

  lemma Adjoin<T>(whole: seq<T>, a: int, b: int, c: int)
    requires 0 <= a <= b <= c <= |whole|
    ensures whole[a..b] + whole[b..c] == whole[a..c]
  {
  }

  lemma CutFront<T>(whole: seq<T>, cuts: seq<int>, parts: seq<seq<T>>, n: nat)
    requires CutAt(whole, cuts, parts) && n <= |parts|
    ensures CutAt(whole, cuts[..n + 1], parts[..n]) && CutAt(whole, cuts[n..], parts[n..])
  {
    var front, back, low, high := parts[..n], parts[n..], cuts[..n + 1], cuts[n..];
    forall k | 0 <= k < |front| ensures Piece(whole, low, front, k) {
      assert Piece(whole, cuts, parts, k);
    }
    forall k | 0 <= k < |back| ensures Piece(whole, high, back, k) {
      assert Piece(whole, cuts, parts, n + k);
    }
  }

  lemma ConcatFront(items: seq<Item>, cuts: seq<int>, runs: seq<seq<Item>>, k: nat)
    requires items != [] && StretchesAt(items, cuts) && CutAt(items, cuts, runs) && k <= |runs|
    ensures 0 <= cuts[k] <= |items|
    ensures Concat(runs[..k]) == items[..cuts[k]] && Concat(runs[k..]) == items[cuts[k]..]
  {
    CutsBelow(cuts, |items|);
    assert cuts[k] in cuts;
    CutFront(items, cuts, runs, k);
    if k > 0 {
      ConcatOfCuts(items, cuts[..k + 1], runs[..k]);
    }
    if k < |runs| {
      ConcatOfCuts(items, cuts[k..], runs[k..]);
    }
  }

  /** Message `at` tells of stretch `k`, and stands after the messages of the items up to its end and before
      those of all later items. */
  ghost predicate ToldAt(summarise: (string, string) -> string, items: seq<Item>, all: seq<Message>, at: nat,
                         cuts: seq<int>, k: nat, number: nat)
    requires k + 1 < |cuts| && 0 <= cuts[k] <= cuts[k + 1] <= |items|
  {
    var start, end := cuts[k], cuts[k + 1];
    && at < |all|
    && Tells(summarise, all[at], items[start..end], if end < |items| then items[end].timestamp else "", number)
    && Only(all[..at], false) == RenderItems(items[..end])
    && Only(all[at + 1..], false) == RenderItems(items[end..])
  }

  lemma FollowingMeans(items: seq<Item>, cuts: seq<int>, runs: seq<seq<Item>>, k: nat)
    requires items != [] && StretchesAt(items, cuts) && CutAt(items, cuts, runs) && k < |runs|
    ensures Following(runs, "", k) == if cuts[k + 1] < |items| then items[cuts[k + 1]].timestamp else ""
  {
    assert Piece(items, cuts, runs, k);
    if k < |runs| - 1 {
      assert Piece(items, cuts, runs, k + 1);
      assert runs[k + 1][0] == items[cuts[k + 1]];
    }
  }

  /** For every stretch in which some tool call has a summary there is an explored message: its text lists the
      summaries, it has the line and the time of the item that gave the last one (or, when that has no
      time, the time of the item that follows the stretch), and it stands at the end of the stretch. */
  lemma {:induction false} StretchIsTold(summarise: (string, string) -> string, items: seq<Item>, cuts: seq<int>, k: nat)
    returns (number: nat)
    requires items != [] && StretchesAt(items, cuts) && CutAt(items, cuts, Runs(items))
    requires Piece(items, cuts, Runs(items), k) && SummariesOf(summarise, Runs(items)[k]) != []
    ensures exists at: nat :: ToldAt(summarise, items, Regrouped(summarise, items), at, cuts, k, number)
  {
    var runs := Runs(items);
    number := |Groups(summarise, runs[..k])| + 1;
    ExploredFollowsItsItems(summarise, items, k);
    var at: nat :| Separates(summarise, runs, "", Regrouped(summarise, items), k, at);
    ConcatFront(items, cuts, runs, k + 1);
    FollowingMeans(items, cuts, runs, k);
    var i := PendingOfMeans(summarise, runs[k]);
    assert ToldAt(summarise, items, Regrouped(summarise, items), at, cuts, k, number);
  }

  // ---- All explored messages together ---------------------------------------------------------------

  /** The k-th explored message lists the k-th of these parts, none empty. */
  ghost predicate ListsParts(explored: seq<Message>, parts: seq<seq<string>>) {
    |explored| == |parts| && forall k :: 0 <= k < |explored| ==> parts[k] != [] && Lists(explored[k], parts[k], k + 1)
  }

  ghost predicate Lists(m: Message, entries: seq<string>, number: nat) {
    m.role == "assistant" && m.suffix == ExploredSuffix(number) && m.content == [TextBlock(ExploredText(entries))]
  }

  lemma {:induction false} EntriesAreConcat(groups: seq<CodexMessages.Pending>, parts: seq<seq<string>>)
    requires |parts| == |groups| && forall k :: 0 <= k < |groups| ==> parts[k] == groups[k].entries
    ensures EntriesOf(groups) == Concat(parts)
  {
    if groups != [] {
      EntriesAreConcat(groups[..|groups| - 1], parts[..|parts| - 1]);
    }
  }

  /** The explored messages of a session, numbered from 1, list all summaries of all its items, in order, each
      in exactly one message. */
  lemma {:induction false} ExploredListAll(parse: string -> Parsed, summarise: (string, string) -> string, items: seq<Item>)
    returns (parts: seq<seq<string>>)
    ensures ListsParts(Only(Regrouped(summarise, Dedup(parse, items)), true), parts)
    ensures Concat(parts) == SummariesOf(summarise, items)
  {
    RegroupingConserves(parse, summarise, items);
    var groups := Groups(summarise, Runs(Dedup(parse, items)));
    parts := seq(|groups|, k requires 0 <= k < |groups| => groups[k].entries);
    AnnouncedLists(Only(Regrouped(summarise, Dedup(parse, items)), true), groups, parts);
    EntriesAreConcat(groups, parts);
  }

  lemma AnnouncedLists(explored: seq<Message>, groups: seq<CodexMessages.Pending>, parts: seq<seq<string>>)
    requires Announced(explored, groups) && forall g :: g in groups ==> g.entries != []
    requires |parts| == |groups| && forall k :: 0 <= k < |groups| ==> parts[k] == groups[k].entries
    ensures ListsParts(explored, parts)
  {
    forall k | 0 <= k < |explored| ensures parts[k] != [] && Lists(explored[k], parts[k], k + 1) {
      assert Announces(explored[k], groups[k], k + 1);
      assert groups[k] in groups;
    }
  }

  // ---- Which thinking is dropped ------------------------------------------------------------------

  /** An assistant item of one thinking block. */
  ghost predicate Thinks(it: Item) {
    it.role == "assistant" && |it.content| == 1 && it.content[0].Thinking?
  }

  function Trimmed(it: Item): string
    requires Thinks(it)
  {
    Text.TrimSpace(it.content[0].text)
  }

  /** The last thinking kept before item `i`. */
  ghost predicate LastKept(items: seq<Item>, keep: seq<int>, i: int, j: int) {
    && 0 <= j < i <= |items| && j in keep && Thinks(items[j])
    && forall m :: j < m < i ==> !(m in keep && Thinks(items[m]))
  }

  /** The last thinking kept before item `i` whose timestamp can be read. */
  ghost predicate LastDated(parse: string -> Parsed, items: seq<Item>, keep: seq<int>, i: int, j: int) {
    && 0 <= j < i <= |items| && j in keep && Thinks(items[j]) && parse(items[j].timestamp).Time?
    && forall m :: j < m < i ==> !(m in keep && Thinks(items[m]) && parse(items[m].timestamp).Time?)
  }

  ghost predicate WithinWindow(a: int, b: int) {
    -2_000_000_000 <= a - b <= 2_000_000_000 || a - b <= -0x8000_0000_0000_0000
  }

  ghost predicate CloseTo(parse: string -> Parsed, t: int, it: Item) {
    && parse(it.timestamp).Time? && parse(it.timestamp).instant != 0
    && WithinWindow(t, parse(it.timestamp).instant)
  }

  /** Item `i` repeats the last thinking kept: the same trimmed text, at a time within two seconds of the last
      time kept, which is not the zero time. */
  ghost predicate Repeats(parse: string -> Parsed, items: seq<Item>, keep: seq<int>, i: int)
    requires 0 <= i < |items| && Thinks(items[i])
  {
    && parse(items[i].timestamp).Time?
    && (exists j :: LastKept(items, keep, i, j) && Trimmed(items[j]) == Trimmed(items[i]))
    && (exists j :: LastDated(parse, items, keep, i, j)
                    && CloseTo(parse, parse(items[i].timestamp).instant, items[j]))
  }

  ghost predicate Goes(parse: string -> Parsed, items: seq<Item>, keep: seq<int>, i: int)
    requires 0 <= i < |items|
  {
    Thinks(items[i]) && (Trimmed(items[i]) == "" || Repeats(parse, items, keep, i))
  }

  /** What is remembered is the last thinking kept and the last time kept. */
  ghost predicate Recalls(parse: string -> Parsed, items: seq<Item>, keep: seq<int>, m: Codex.Memory) {
    RecallsText(items, keep, m.lastText) && RecallsTime(parse, items, keep, m.lastTime)
  }

  ghost predicate RecallsText(items: seq<Item>, keep: seq<int>, text: string) {
    && (forall j :: LastKept(items, keep, |items|, j) ==> text == Trimmed(items[j]))
    && (text != "" ==> exists j :: LastKept(items, keep, |items|, j))
  }

  ghost predicate RecallsTime(parse: string -> Parsed, items: seq<Item>, keep: seq<int>, time: int) {
    && (forall j :: LastDated(parse, items, keep, |items|, j) ==> time == parse(items[j].timestamp).instant)
    && (time != 0 ==> exists j :: LastDated(parse, items, keep, |items|, j))
  }

  lemma SameBefore(parse: string -> Parsed, items: seq<Item>, keep: seq<int>, more: seq<int>, i: int)
    requires 0 <= i <= |items| && forall m :: 0 <= m < i ==> (m in keep <==> m in more)
    ensures forall j :: LastKept(items, keep, i, j) <==> LastKept(items, more, i, j)
    ensures forall j :: LastDated(parse, items, keep, i, j) <==> LastDated(parse, items, more, i, j)
  {
  }

  lemma LongerBefore(parse: string -> Parsed, front: seq<Item>, it: Item, keep: seq<int>, i: int)
    requires 0 <= i <= |front|
    ensures forall j :: LastKept(front + [it], keep, i, j) <==> LastKept(front, keep, i, j)
    ensures forall j :: LastDated(parse, front + [it], keep, i, j) <==> LastDated(parse, front, keep, i, j)
  {
    var items := front + [it];
    assert forall j :: 0 <= j < |front| ==> items[j] == front[j];
  }

  lemma LastTextMeans(parse: string -> Parsed, items: seq<Item>, keep: seq<int>, m: Codex.Memory, text: string)
    requires Recalls(parse, items, keep, m) && text != ""
    ensures (exists j :: LastKept(items, keep, |items|, j) && Trimmed(items[j]) == text) <==> m.lastText == text
  {
  }

  lemma LastTimeMeans(parse: string -> Parsed, items: seq<Item>, keep: seq<int>, m: Codex.Memory, t: int)
    requires Recalls(parse, items, keep, m)
    ensures (exists j :: LastDated(parse, items, keep, |items|, j) && CloseTo(parse, t, items[j]))
            <==> m.lastTime != 0 && Near(t, m.lastTime)
  {
    NearMeans(t, m.lastTime);
    if m.lastTime != 0 && Near(t, m.lastTime) {
      var j :| LastDated(parse, items, keep, |items|, j);
      assert CloseTo(parse, t, items[j]);
    }
  }

  lemma RepeatsSame(parse: string -> Parsed, front: seq<Item>, it: Item, keep: seq<int>, more: seq<int>)
    requires Thinks(it) && forall j :: 0 <= j < |front| ==> (j in keep <==> j in more)
    ensures Repeats(parse, front + [it], more, |front|)
            <==> && parse(it.timestamp).Time?
                 && (exists j :: LastKept(front, keep, |front|, j) && Trimmed(front[j]) == Trimmed(it))
                 && (exists j :: LastDated(parse, front, keep, |front|, j)
                                 && CloseTo(parse, parse(it.timestamp).instant, front[j]))
  {
    var items := front + [it];
    LongerBefore(parse, front, it, more, |front|);
    SameBefore(parse, front, keep, more, |front|);
    assert items[|front|] == it;
    assert forall j :: 0 <= j < |front| ==> items[j] == front[j];
  }

  /** One more item goes or stays by the rule. */
  lemma GoesNext(parse: string -> Parsed, front: seq<Item>, it: Item, keep: seq<int>, more: seq<int>, m: Codex.Memory)
    requires Recalls(parse, front, keep, m) && forall j :: 0 <= j < |front| ==> (j in keep <==> j in more)
    ensures Dropped(parse, m, it) <==> Goes(parse, front + [it], more, |front|)
  {
    assert (front + [it])[|front|] == it;
    if Thinks(it) && Trimmed(it) != "" {
      RepeatsSame(parse, front, it, keep, more);
      LastTextMeans(parse, front, keep, m, Trimmed(it));
      if parse(it.timestamp).Time? {
        LastTimeMeans(parse, front, keep, m, parse(it.timestamp).instant);
      }
    }
  }

  ghost predicate SameUpTo(n: int, keep: seq<int>, more: seq<int>) {
    forall j :: 0 <= j < n ==> (j in keep <==> j in more)
  }

  lemma KeptLonger(front: seq<Item>, it: Item, keep: seq<int>, more: seq<int>, j: int)
    requires SameUpTo(|front|, keep, more)
    ensures !(|front| in more && Thinks(it))
            ==> (LastKept(front + [it], more, |front| + 1, j) <==> LastKept(front, keep, |front|, j))
    ensures |front| in more && Thinks(it) ==> (LastKept(front + [it], more, |front| + 1, j) <==> j == |front|)
    ensures 0 <= j < |front| ==> (front + [it])[j] == front[j]
  {
    var items := front + [it];
    assert items[|front|] == it;
    assert forall k :: 0 <= k < |front| ==> items[k] == front[k];
  }

  lemma DatedLonger(parse: string -> Parsed, front: seq<Item>, it: Item, keep: seq<int>, more: seq<int>, j: int)
    requires SameUpTo(|front|, keep, more)
    ensures var counts := |front| in more && Thinks(it) && parse(it.timestamp).Time?;
            LastDated(parse, front + [it], more, |front| + 1, j)
            <==> if counts then j == |front| else LastDated(parse, front, keep, |front|, j)
    ensures 0 <= j < |front| ==> (front + [it])[j] == front[j]
  {
    var items := front + [it];
    assert items[|front|] == it;
    assert forall k :: 0 <= k < |front| ==> items[k] == front[k];
  }

  lemma TextNext(front: seq<Item>, it: Item, keep: seq<int>, more: seq<int>, text: string)
    requires RecallsText(front, keep, text) && SameUpTo(|front|, keep, more)
    ensures RecallsText(front + [it], more, if |front| in more && Thinks(it) then Trimmed(it) else text)
  {
    forall j {
      KeptLonger(front, it, keep, more, j);
    }
    assert (front + [it])[|front|] == it;
  }

  lemma TimeNext(parse: string -> Parsed, front: seq<Item>, it: Item, keep: seq<int>, more: seq<int>, time: int)
    requires RecallsTime(parse, front, keep, time) && SameUpTo(|front|, keep, more)
    ensures RecallsTime(parse, front + [it], more,
                        if |front| in more && Thinks(it) && parse(it.timestamp).Time? then parse(it.timestamp).instant else time)
  {
    forall j {
      DatedLonger(parse, front, it, keep, more, j);
    }
    assert (front + [it])[|front|] == it;
  }

  /** After one more item what is remembered is again the last. */
  lemma RecallsNext(parse: string -> Parsed, front: seq<Item>, it: Item, keep: seq<int>, more: seq<int>, m: Codex.Memory)
    requires Recalls(parse, front, keep, m) && SameUpTo(|front|, keep, more)
    requires |front| in more <==> !Dropped(parse, m, it)
    ensures Recalls(parse, front + [it], more, Remember(parse, m, it))
  {
    TextNext(front, it, keep, more, m.lastText);
    TimeNext(parse, front, it, keep, more, m.lastTime);
  }

  lemma GoesStill(parse: string -> Parsed, front: seq<Item>, it: Item, keep: seq<int>, more: seq<int>, i: int)
    requires 0 <= i < |front| && SameUpTo(|front|, keep, more)
    ensures Goes(parse, front + [it], more, i) <==> Goes(parse, front, keep, i)
  {
    LongerBefore(parse, front, it, more, i);
    SameBefore(parse, front, keep, more, i);
  }

  /** Exactly the items that do not go are kept. */
  ghost predicate KeepsOthers(parse: string -> Parsed, items: seq<Item>, keep: seq<int>) {
    forall i :: i in keep <==> 0 <= i < |items| && !Goes(parse, items, keep, i)
  }

  lemma KeepsNext(parse: string -> Parsed, front: seq<Item>, it: Item, keep: seq<int>, more: seq<int>)
    requires KeepsOthers(parse, front, keep) && SameUpTo(|front|, keep, more)
    requires forall i :: i in more ==> 0 <= i <= |front|
    requires |front| in more <==> !Goes(parse, front + [it], more, |front|)
    ensures KeepsOthers(parse, front + [it], more)
  {
    forall i ensures i in more <==> 0 <= i < |front| + 1 && !Goes(parse, front + [it], more, i) {
      if 0 <= i < |front| {
        GoesStill(parse, front, it, keep, more, i);
      }
    }
  }

  lemma SameWithOneMore(keep: seq<int>, n: int)
    requires forall i :: i in keep ==> 0 <= i < n
    ensures SameUpTo(n, keep, keep) && SameUpTo(n, keep, keep + [n])
    ensures n !in keep && n in keep + [n]
    ensures forall i :: i in keep + [n] ==> i in keep || i == n
  {
    assert (keep + [n])[|keep|] == n;
  }

  /** One more item. */
  lemma DedupNext(parse: string -> Parsed, front: seq<Item>, it: Item, keep: seq<int>) returns (more: seq<int>)
    requires Selects(front, keep, Dedup(parse, front)) && KeepsOthers(parse, front, keep)
    requires Recalls(parse, front, keep, Remembered(parse, front))
    ensures Selects(front + [it], more, Dedup(parse, front + [it])) && KeepsOthers(parse, front + [it], more)
    ensures Recalls(parse, front + [it], more, Remembered(parse, front + [it]))
  {
    var m := Remembered(parse, front);
    SameWithOneMore(keep, |front|);
    SelectsMore(front, keep, Dedup(parse, front), it);
    DedupSnoc(parse, front, it);
    more := if Dropped(parse, m, it) then keep else keep + [|front|];
    GoesNext(parse, front, it, keep, more, m);
    RecallsNext(parse, front, it, keep, more, m);
    KeepsNext(parse, front, it, keep, more);
    assert Dedup(parse, front) + [] == Dedup(parse, front);
  }

  /** Exactly which items go: blank thinking, and thinking that repeats the last thinking kept.  Everything
      else is kept, in order. */
  lemma {:induction false} DedupMeans(parse: string -> Parsed, items: seq<Item>) returns (keep: seq<int>)
    ensures Selects(items, keep, Dedup(parse, items))
    ensures KeepsOthers(parse, items, keep)
    ensures Recalls(parse, items, keep, Remembered(parse, items))
  {
    keep := [];
    if items != [] {
      keep := DedupMeans(parse, items[..|items| - 1]);
      keep := DedupNext(parse, items[..|items| - 1], items[|items| - 1], keep);
      assert items == items[..|items| - 1] + [items[|items| - 1]];
    }
  }

  // ---- Numbering and pages ------------------------------------------------------------------------

  lemma NumberedMeans(built: seq<Message>, i: nat)
    requires i < |built|
    ensures |Numbered(built)| == |Reversed(Numbered(built))| == |built|
    ensures Numbered(built)[i] == built[i].(id := i + 1)
    ensures Reversed(Numbered(built))[|built| - 1 - i] == Numbered(built)[i]
  {
  }

  /** A session shows the regrouped messages numbered from 1, or the same backwards when asked for "desc". */
  lemma {:induction false} SessionMeans(parse: string -> Parsed, summarise: (string, string) -> string, items: seq<Item>,
                                        order: string, i: nat)
    requires i < |Regrouped(summarise, Dedup(parse, items))|
    ensures var built, shown := Regrouped(summarise, Dedup(parse, items)), SessionMessages(parse, summarise, items, order);
            && |shown| == |built|
            && shown[if order == "desc" then |built| - 1 - i else i] == built[i].(id := i + 1)
  {
    NumberedMeans(Regrouped(summarise, Dedup(parse, items)), i);
  }

  /** A page: from the offset (0 if negative), as many messages as the limit says (50 if it is not positive),
      or as many as there are. */
  lemma PageMeans(all: seq<Message>, limit: int, offset: int)
    ensures var page, start, step := Page(all, limit, offset), if offset < 0 then 0 else offset, if limit <= 0 then 50 else limit;
            && |page| == (if start >= |all| then 0 else if |all| - start < step then |all| - start else step)
            && forall i :: 0 <= i < |page| ==> page[i] == all[start + i]
  {
  }
}
