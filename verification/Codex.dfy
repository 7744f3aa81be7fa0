/** Codex conversation items turned into session messages: duplicates of thinking are dropped, and
    what the tools explored is gathered into one extra message per stretch of tool calls. */
module Codex {

  import Text

  datatype Block =
    | TextBlock(text: string)
    | Thinking(text: string)
    | ToolUse(toolID: string, toolName: string, toolInput: string)
    | ToolResult(toolUseID: string, content: string, isError: bool)
    | OtherBlock(kind: string)

  datatype Item = Item(line: int, timestamp: string, role: string, isContextCompaction: bool, content: seq<Block>)

  /** The part of a message ID after the line: nothing, or the number of the explored message. */
  datatype Suffix = NoSuffix | ExploredSuffix(number: nat)

  datatype Message = Message(id: int, line: int, suffix: Suffix, role: string, timestamp: string,
                             content: seq<Block>, isContextCompaction: bool)

  // ---- Dropping duplicate thinking ----------------------------------------------------------

  /** Nanoseconds since the zero time. */
  datatype Parsed = NotATime | Time(instant: int)

  const MAX_DURATION: int := 0x7fff_ffff_ffff_ffff
  const MIN_DURATION: int := -0x8000_0000_0000_0000
  const ECHO_WINDOW: int := 2_000_000_000

  /** `time.Time.Sub` saturates. */
  function Sub(a: int, b: int): int {
    if a - b > MAX_DURATION then MAX_DURATION else if a - b < MIN_DURATION then MIN_DURATION else a - b
  }

  /** Negating a duration wraps around. */
  function Negated(d: int): int {
    if d == MIN_DURATION then MIN_DURATION else -d
  }

  predicate Near(a: int, b: int) {
    var delta := Sub(a, b);
    (if delta < 0 then Negated(delta) else delta) <= ECHO_WINDOW
  }

  /** Two seconds either way; and, because the smallest duration is its own negation, more than 292
      years back. */
  lemma NearMeans(a: int, b: int)
    ensures Near(a, b) <==> -2_000_000_000 <= a - b <= 2_000_000_000 || a - b <= -0x8000_0000_0000_0000
  {
  }

  predicate ThinkingOnly(it: Item) {
    it.role == "assistant" && |it.content| == 1 && it.content[0].Thinking?
  }

  function Thought(it: Item): string
    requires ThinkingOnly(it)
  {
    Text.TrimSpace(it.content[0].text)
  }

  /** The last thinking kept: its text, and the last time read from a kept one (0 at first). */
  datatype Memory = Memory(lastText: string, lastTime: int)

  const NO_MEMORY := Memory("", 0)

  predicate Echo(parse: string -> Parsed, m: Memory, it: Item)
    requires ThinkingOnly(it)
  {
    parse(it.timestamp).Time? && m.lastText == Thought(it) && m.lastTime != 0
    && Near(parse(it.timestamp).instant, m.lastTime)
  }

  predicate Dropped(parse: string -> Parsed, m: Memory, it: Item) {
    ThinkingOnly(it) && (Thought(it) == "" || Echo(parse, m, it))
  }

  function Remember(parse: string -> Parsed, m: Memory, it: Item): Memory {
    if !ThinkingOnly(it) || Dropped(parse, m, it) then m
    else Memory(Thought(it), if parse(it.timestamp).Time? then parse(it.timestamp).instant else m.lastTime)
  }

  function Remembered(parse: string -> Parsed, items: seq<Item>): Memory {
    if items == [] then NO_MEMORY
    else Remember(parse, Remembered(parse, items[..|items| - 1]), items[|items| - 1])
  }

  function Dedup(parse: string -> Parsed, items: seq<Item>): seq<Item> {
    if items == [] then []
    else
      var front, it := items[..|items| - 1], items[|items| - 1];
      Dedup(parse, front) + if Dropped(parse, Remembered(parse, front), it) then [] else [it]
  }

  lemma DedupSnoc(parse: string -> Parsed, items: seq<Item>, it: Item)
    ensures Dedup(parse, items + [it])
            == Dedup(parse, items) + if Dropped(parse, Remembered(parse, items), it) then [] else [it]
    ensures Remembered(parse, items + [it]) == Remember(parse, Remembered(parse, items), it)
  {
    assert (items + [it])[..|items|] == items;
  }

  /** One turn of the loop: whether the item goes, and what is remembered after it. */
  method Examine(parse: string -> Parsed, it: Item, lastText: string, lastTime: int)
    returns (drop: bool, text: string, time: int)
    ensures drop == Dropped(parse, Memory(lastText, lastTime), it)
    ensures Memory(text, time) == Remember(parse, Memory(lastText, lastTime), it)
  {
    text, time := lastText, lastTime;
    if it.role == "assistant" && |it.content| == 1 && it.content[0].Thinking? {
      var thought := Text.TrimSpace(it.content[0].text);
      if thought == "" {
        return true, text, time;
      }
      var ts := parse(it.timestamp);
      if ts.Time? && lastText == thought && lastTime != 0 {
        var delta := Sub(ts.instant, lastTime);
        if delta < 0 {
          delta := Negated(delta);
        }
        if delta <= ECHO_WINDOW {
          return true, text, time;
        }
      }
      if ts.Time? {
        time := ts.instant;
      }
      text := thought;
    }
    return false, text, time;
  }

  method DedupCodexThinking(parse: string -> Parsed, items: seq<Item>) returns (out: seq<Item>)
    ensures out == Dedup(parse, items)
  {
    out := [];
    var lastText, lastTime := "", 0;
    for i := 0 to |items|
      invariant out == Dedup(parse, items[..i])
      invariant Memory(lastText, lastTime) == Remembered(parse, items[..i])
    {
      DedupSnoc(parse, items[..i], items[i]);
      assert items[..i + 1] == items[..i] + [items[i]];
      var drop: bool;
      drop, lastText, lastTime := Examine(parse, items[i], lastText, lastTime);
      if drop {
        continue;
      }
      out := out + [items[i]];
    }
    assert items[..|items|] == items;
  }

  /** Dropping duplicates is idempotent: what was kept is kept again, because a dropped item leaves
      no trace in the memory. */
  lemma {:induction false} DedupIdempotent(parse: string -> Parsed, items: seq<Item>)
    ensures Dedup(parse, Dedup(parse, items)) == Dedup(parse, items)
    ensures Remembered(parse, Dedup(parse, items)) == Remembered(parse, items)
  {
    if items != [] {
      var front, it := items[..|items| - 1], items[|items| - 1];
      DedupIdempotent(parse, front);
      DedupSnoc(parse, Dedup(parse, front), it);
      assert Dedup(parse, front) + [] == Dedup(parse, front);
    }
  }

  /** Every dropped item is thinking, blank or the echo of a kept thinking before it. */
  lemma {:induction false} DroppedHasOriginal(parse: string -> Parsed, items: seq<Item>, i: nat)
    requires i < |items| && Dropped(parse, Remembered(parse, items[..i]), items[i])
    requires Thought(items[i]) != ""
    ensures exists original :: original in Dedup(parse, items[..i]) && ThinkingOnly(original)
                               && Thought(original) == Thought(items[i])
  {
    MemoryHasOriginal(parse, items[..i]);
  }

  lemma {:induction false} MemoryHasOriginal(parse: string -> Parsed, items: seq<Item>)
    requires Remembered(parse, items).lastText != ""
    ensures exists original :: original in Dedup(parse, items) && ThinkingOnly(original)
                               && Thought(original) == Remembered(parse, items).lastText
  {
    if items != [] {
      var front, it := items[..|items| - 1], items[|items| - 1];
      var m := Remembered(parse, front);
      if !ThinkingOnly(it) || Dropped(parse, m, it) {
        MemoryHasOriginal(parse, front);
        var original :| original in Dedup(parse, front) && ThinkingOnly(original) && Thought(original) == m.lastText;
        assert original in Dedup(parse, items);
      } else {
        assert it in Dedup(parse, items);
      }
    }
  }

  /** No echo is left: a kept thinking with a time is not near the last time kept before it, if the
      text is the one kept last. */
  lemma {:induction false} NoEchoLeft(parse: string -> Parsed, items: seq<Item>, i: nat)
    requires i < |Dedup(parse, items)| && ThinkingOnly(Dedup(parse, items)[i])
    ensures var out := Dedup(parse, items);
            Thought(out[i]) != "" && !Echo(parse, Remembered(parse, out[..i]), out[i])
  {
    var front, it := items[..|items| - 1], items[|items| - 1];
    var out, kept := Dedup(parse, items), Dedup(parse, front);
    if i < |kept| {
      assert out[..i] == kept[..i];
      NoEchoLeft(parse, front, i);
    } else {
      assert out[..i] == kept;
      DedupIdempotent(parse, front);
    }
  }

  // ---- What a message shows -----------------------------------------------------------------

  predicate Shown(b: Block) {
    match b
    case TextBlock(text) => !Text.Blank(text)
    case Thinking(text) => !Text.Blank(text)
    case ToolUse(_, name, _) => name != ""
    case ToolResult(_, content, _) => !Text.Blank(content)
    case OtherBlock(_) => false
  }

  function ShownBlocks(blocks: seq<Block>): seq<Block> {
    if blocks == [] then []
    else ShownBlocks(blocks[..|blocks| - 1])
         + if Shown(blocks[|blocks| - 1]) then [blocks[|blocks| - 1]] else []
  }

  /** The message of an item, if there is anything to show. */
  function RenderAs(role: string, blocks: seq<Block>, timestamp: string, line: int, suffix: Suffix, compaction: bool)
    : seq<Message>
  {
    if role !in {"user", "assistant"} || ShownBlocks(blocks) == [] then []
    else [Message(0, line, suffix, role, timestamp, ShownBlocks(blocks), compaction)]
  }

  function RenderItem(it: Item): seq<Message> {
    RenderAs(it.role, it.content, it.timestamp, it.line, NoSuffix, it.isContextCompaction)
  }

  function RenderItems(items: seq<Item>): seq<Message> {
    if items == [] then [] else RenderItems(items[..|items| - 1]) + RenderItem(items[|items| - 1])
  }

  // ---- What the tools explored --------------------------------------------------------------

  /** `summarise` gives the summary of a tool call from its name and input. */
  function Summaries(summarise: (string, string) -> string, blocks: seq<Block>): seq<string> {
    if blocks == [] then []
    else
      var front, b := blocks[..|blocks| - 1], blocks[|blocks| - 1];
      Summaries(summarise, front)
      + if b.ToolUse? && !Text.Blank(summarise(b.toolName, b.toolInput)) then [summarise(b.toolName, b.toolInput)]
        else []
  }

  function SummariesOf(summarise: (string, string) -> string, items: seq<Item>): seq<string> {
    if items == [] then []
    else SummariesOf(summarise, items[..|items| - 1]) + Summaries(summarise, items[|items| - 1].content)
  }

  predicate ToolBlock(b: Block) {
    b.ToolUse? || b.ToolResult?
  }

  /** Whether the explored message so far is written before this item: anything but an assistant item
      made of tool calls and their results. */
  predicate ShouldFlush(it: Item) {
    it.role != "assistant" || exists i :: 0 <= i < |it.content| && !ToolBlock(it.content[i])
  }

  method ShouldFlushCodexExploredBeforeItem(it: Item) returns (flush: bool)
    ensures flush == ShouldFlush(it)
  {
    if it.role != "assistant" {
      return true;
    }
    for i := 0 to |it.content|
      invariant forall j :: 0 <= j < i ==> ToolBlock(it.content[j])
    {
      if !ToolBlock(it.content[i]) {
        return true;
      }
    }
    return false;
  }

  method CollectCodexToolSummaries(summarise: (string, string) -> string, blocks: seq<Block>) returns (out: seq<string>)
    ensures out == Summaries(summarise, blocks)
    ensures forall s :: s in out ==> !Text.Blank(s)
  {
    out := [];
    for i := 0 to |blocks|
      invariant out == Summaries(summarise, blocks[..i])
      invariant forall s :: s in out ==> !Text.Blank(s)
    {
      var b := blocks[i];
      assert blocks[..i + 1][..i] == blocks[..i];
      if b.ToolUse? {
        var summary := summarise(b.toolName, b.toolInput);
        if Text.TrimSpace(summary) != "" {
          out := out + [summary];
        }
      }
    }
    assert blocks[..|blocks|] == blocks;
  }

  const EXPLORED := "**Explored**"
  const BRANCH := "\U{251C} "
  const LAST_BRANCH := "\U{2514} "

  /** The entries as lines of a tree; `last` says that the final entry closes it. */
  function Marked(entries: seq<string>, last: bool): seq<string> {
    if entries == [] then []
    else Marked(entries[..|entries| - 1], false)
         + [(if last then LAST_BRANCH else BRANCH) + entries[|entries| - 1]]
  }

  function ExploredText(entries: seq<string>): string {
    if entries == [] then "" else Text.Join([EXPLORED] + Marked(entries, true), '\n')
  }

  lemma {:induction false} MarkedShape(entries: seq<string>, last: bool)
    ensures |Marked(entries, last)| == |entries|
    ensures forall i :: 0 <= i < |entries| ==>
              Marked(entries, last)[i] == (if last && i == |entries| - 1 then LAST_BRANCH else BRANCH) + entries[i]
  {
    if entries != [] {
      MarkedShape(entries[..|entries| - 1], false);
    }
  }

  /** An explored message says which entries it stands for, as long as no entry breaks a line. */
  lemma ExploredTextDetermines(a: seq<string>, b: seq<string>)
    requires forall e :: e in a + b ==> '\n' !in e
    requires ExploredText(a) == ExploredText(b)
    ensures a == b
  {
    ExploredLines(a);
    ExploredLines(b);
    MarkedShape(a, true);
    MarkedShape(b, true);
    if a != [] && b != [] {
      var p, q := [EXPLORED] + Marked(a, true), [EXPLORED] + Marked(b, true);
      assert p == q;
      assert Marked(a, true) == p[1..] && Marked(b, true) == q[1..];
      forall i | 0 <= i < |a| ensures a[i] == b[i] {
        assert a[i] == Marked(a, true)[i][2..] && b[i] == Marked(b, true)[i][2..];
      }
    }
  }

  lemma ExploredLines(entries: seq<string>)
    requires forall e :: e in entries ==> '\n' !in e
    ensures entries != [] ==> ExploredText(entries) != ""
                              && Text.Split(ExploredText(entries), '\n') == [EXPLORED] + Marked(entries, true)
  {
    if entries != [] {
      MarkedShape(entries, true);
      var lines := [EXPLORED] + Marked(entries, true);
      forall l | l in lines ensures '\n' !in l {
        if l != EXPLORED {
          var i :| 0 <= i < |entries| && l == Marked(entries, true)[i];
          assert entries[i] in entries;
        }
      }
      Text.SplitJoin(lines, '\n');
      ExploredIsShown(entries);
    }
  }

  /** The explored message is never blank. */
  lemma ExploredIsShown(entries: seq<string>)
    requires entries != []
    ensures ExploredText(entries) != "" && !Text.Blank(ExploredText(entries))
  {
    var lines := [EXPLORED] + Marked(entries, true);
    var text := ExploredText(entries);
    MarkedShape(entries, true);
    assert lines[1..] == Marked(entries, true);
    assert text == EXPLORED + ['\n'] + Text.Join(lines[1..], '\n');
    assert text[0] == '*';
    StartsWithInk(text);
  }

  lemma {:induction false} StartsWithInk(s: string)
    requires s != "" && !Text.IsSpace(s[0])
    ensures !Text.Blank(s)
  {
    assert Text.TrimLeft(s) == s;
    InkStays(s);
  }

  lemma {:induction false} InkStays(s: string)
    requires s != "" && !Text.IsSpace(s[0])
    ensures Text.TrimRight(s) != ""
  {
    if Text.IsSpace(s[|s| - 1]) {
      InkStays(s[..|s| - 1]);
    }
  }
}
