/** The server's L3 block cache: a map of blocks, a list of keys in order of use, and a map from
    keys to their list nodes. It refines a plain recency list. */
module L3Cache {
  import opened Words

  type Key = nat

  // ---------- The recency list ----------

  /** A resident block; lists run from the most to the least recently used. */
  datatype Item = Item(key: Key, data: seq<byte>)

  function Total(items: seq<Item>): nat {
    if items == [] then 0 else Total(items[..|items| - 1]) + |items[|items| - 1].data|
  }

  predicate Has(items: seq<Item>, key: Key) {
    exists i :: 0 <= i < |items| && items[i].key == key
  }

  ghost predicate Distinct(items: seq<Item>) {
    forall i, j :: 0 <= i < j < |items| ==> items[i].key != items[j].key
  }

  function Position(items: seq<Item>, key: Key): (i: nat)
    requires Has(items, key)
    ensures i < |items| && items[i].key == key
  {
    if items[0].key == key then 0 else Position(items[1..], key) + 1
  }

  function Without(items: seq<Item>, i: nat): seq<Item>
    requires i < |items|
  {
    items[..i] + items[i + 1..]
  }

  /** Eviction drops the least recently used block while the total exceeds the watermark. */
  function Kept(items: seq<Item>, high: nat): (kept: seq<Item>)
    ensures kept <= items
  {
    if Total(items) <= high || items == [] then items else Kept(items[..|items| - 1], high)
  }

  /** What is kept is the longest prefix that fits. */
  lemma {:induction false} KeptIsLongest(items: seq<Item>, high: nat)
    ensures Total(Kept(items, high)) <= high
    ensures forall m :: |Kept(items, high)| < m <= |items| ==> Total(items[..m]) > high
  {
    if Total(items) > high && items != [] {
      var n := |items| - 1;
      KeptIsLongest(items[..n], high);
      forall m | |Kept(items, high)| < m <= |items|
        ensures Total(items[..m]) > high
      {
        if m <= n {
          assert items[..n][..m] == items[..m];
        } else {
          assert items[..m] == items;
        }
      }
    } else {
      assert Total(items) <= high;
    }
  }

  function Touch(items: seq<Item>, key: Key): seq<Item> {
    if Has(items, key)
    then var i := Position(items, key); [items[i]] + Without(items, i)
    else items
  }

  function Inserted(items: seq<Item>, key: Key, data: seq<byte>, high: nat): seq<Item> {
    if Has(items, key) then items else Kept([Item(key, data)] + items, high)
  }

  function Removed(items: seq<Item>, key: Key): seq<Item> {
    if Has(items, key) then Without(items, Position(items, key)) else items
  }

  lemma {:induction false} TotalAppend(a: seq<Item>, b: seq<Item>)
    ensures Total(a + b) == Total(a) + Total(b)
  {
    if b == [] {
      assert a + b == a;
    } else {
      assert (a + b)[..|a + b| - 1] == a + b[..|b| - 1];
      TotalAppend(a, b[..|b| - 1]);
    }
  }

  lemma TotalWithout(items: seq<Item>, i: nat)
    requires i < |items|
    ensures Total(items) == Total(Without(items, i)) + |items[i].data|
  {
    hide Total;
    TotalAppend(items[..i], items[i + 1..]);
    TotalAppend(items[..i], [items[i]] + items[i + 1..]);
    TotalAppend([items[i]], items[i + 1..]);
    assert items == items[..i] + ([items[i]] + items[i + 1..]);
    TotalOne(items[i]);
  }

  lemma TotalTouch(items: seq<Item>, key: Key)
    ensures Total(Touch(items, key)) == Total(items)
  {
    hide Total;
    if Has(items, key) {
      var i := Position(items, key);
      TotalWithout(items, i);
      TotalAppend([items[i]], Without(items, i));
      TotalOne(items[i]);
    }
  }

  lemma TotalOne(item: Item)
    ensures Total([item]) == |item.data|
  {
    assert [item][..0] == [];
  }

  // ---------- Runs ----------

  datatype Op = LookupOp(key: Key) | InsertOp(key: Key, data: seq<byte>) | InvalidateOp(key: Key)

  function Step(items: seq<Item>, op: Op, high: nat): seq<Item> {
    match op
    case LookupOp(key) => Touch(items, key)
    case InsertOp(key, data) => Inserted(items, key, data, high)
    case InvalidateOp(key) => Removed(items, key)
  }

  function Run(ops: seq<Op>, high: nat): seq<Item> {
    if ops == [] then [] else Step(Run(ops[..|ops| - 1], high), ops[|ops| - 1], high)
  }

  /** Whether an operation counts as a use of a key: a hit, or an insertion that takes effect. */
  predicate Uses(items: seq<Item>, op: Op, key: Key) {
    match op
    case LookupOp(k) => k == key && Has(items, key)
    case InsertOp(k, _) => k == key && !Has(items, key)
    case InvalidateOp(_) => false
  }

  /** The number of the operation that last used a key, counting from 1; 0 if none did. */
  function LastUse(ops: seq<Op>, high: nat, key: Key): nat {
    if ops == [] then 0
    else if Uses(Run(ops[..|ops| - 1], high), ops[|ops| - 1], key) then |ops|
    else LastUse(ops[..|ops| - 1], high, key)
  }

  /** The list is in order of last use, which also makes its keys distinct. */
  ghost predicate Ordered(ops: seq<Op>, high: nat, items: seq<Item>) {
    && (forall i :: 0 <= i < |items| ==> 1 <= LastUse(ops, high, items[i].key) <= |ops|)
    && (forall i, j :: 0 <= i < j < |items| ==>
          LastUse(ops, high, items[i].key) > LastUse(ops, high, items[j].key))
  }

  lemma OrderedIsDistinct(ops: seq<Op>, high: nat, items: seq<Item>)
    requires Ordered(ops, high, items)
    ensures Distinct(items)
  {
    hide LastUse;
    forall i, j | 0 <= i < j < |items|
      ensures items[i].key != items[j].key
    {
      assert LastUse(ops, high, items[i].key) > LastUse(ops, high, items[j].key);
    }
  }

  /** After every run the blocks lie in order of last use and their total is within the watermark. */
  lemma {:induction false} RunInv(ops: seq<Op>, high: nat)
    ensures Ordered(ops, high, Run(ops, high))
    ensures Distinct(Run(ops, high))
    ensures Total(Run(ops, high)) <= high
  {
    hide Total, Step, Ordered, Distinct;
    if ops == [] {
      NothingUsed(high);
    } else {
      var before, op := ops[..|ops| - 1], ops[|ops| - 1];
      RunInv(before, high);
      StepOrdered(before, high, Run(before, high), op);
      assert before + [op] == ops;
      OrderedIsDistinct(ops, high, Run(ops, high));
    }
  }

  lemma NothingUsed(high: nat)
    ensures Ordered([], high, []) && Distinct([]) && Total([]) <= high
  {
  }

  lemma StepOrdered(before: seq<Op>, high: nat, items: seq<Item>, op: Op)
    requires items == Run(before, high) && Ordered(before, high, items) && Total(items) <= high
    ensures Ordered(before + [op], high, Step(items, op, high))
    ensures Total(Step(items, op, high)) <= high
  {
    hide Total, Ordered, Run, Touch, Inserted, Removed;
    match op
    case LookupOp(key) =>
      TotalTouch(items, key);
      TouchOrdered(before, high, items, key);
    case InsertOp(key, data) =>
      InsertOrdered(before, high, items, key, data);
    case InvalidateOp(key) =>
      RemoveOrdered(before, high, items, key);
  }

  lemma LastUseStep(before: seq<Op>, high: nat, op: Op, key: Key)
    ensures LastUse(before + [op], high, key) ==
      if Uses(Run(before, high), op, key) then |before| + 1 else LastUse(before, high, key)
  {
    hide Run, Uses;
    assert (before + [op])[..|before|] == before;
  }

  /** A step that does not use the listed keys leaves their order alone. */
  lemma OrderedLater(before: seq<Op>, high: nat, op: Op, items: seq<Item>)
    requires Ordered(before, high, items)
    requires forall i :: 0 <= i < |items| ==> !Uses(Run(before, high), op, items[i].key)
    ensures Ordered(before + [op], high, items)
  {
    hide LastUse, Run, Uses;
    forall i | 0 <= i < |items|
      ensures LastUse(before + [op], high, items[i].key) == LastUse(before, high, items[i].key)
    {
      LastUseStep(before, high, op, items[i].key);
    }
  }

  /** The key a step uses goes to the front. */
  lemma OrderedFront(before: seq<Op>, high: nat, op: Op, item: Item, items: seq<Item>)
    requires Ordered(before, high, items)
    requires Uses(Run(before, high), op, item.key)
    requires forall i :: 0 <= i < |items| ==> !Uses(Run(before, high), op, items[i].key)
    ensures Ordered(before + [op], high, [item] + items)
  {
    hide LastUse, Run, Uses;
    forall i | 0 <= i < |items|
      ensures LastUse(before + [op], high, items[i].key) == LastUse(before, high, items[i].key)
    {
      LastUseStep(before, high, op, items[i].key);
    }
    LastUseStep(before, high, op, item.key);
  }

  lemma OrderedWithout(ops: seq<Op>, high: nat, items: seq<Item>, i: nat)
    requires Ordered(ops, high, items) && i < |items|
    ensures Ordered(ops, high, Without(items, i))
    ensures forall j :: 0 <= j < |Without(items, i)| ==> Without(items, i)[j].key != items[i].key
  {
    hide LastUse;
    OrderedIsDistinct(ops, high, items);
  }

  lemma TouchOrdered(before: seq<Op>, high: nat, items: seq<Item>, key: Key)
    requires items == Run(before, high) && Ordered(before, high, items)
    ensures Ordered(before + [LookupOp(key)], high, Touch(items, key))
  {
    hide LastUse, Run, Ordered, Without;
    if Has(items, key) {
      var i := Position(items, key);
      OrderedWithout(before, high, items, i);
      OrderedFront(before, high, LookupOp(key), items[i], Without(items, i));
    } else {
      OrderedLater(before, high, LookupOp(key), items);
    }
  }

  lemma InsertOrdered(before: seq<Op>, high: nat, items: seq<Item>, key: Key, data: seq<byte>)
    requires items == Run(before, high) && Ordered(before, high, items) && Total(items) <= high
    ensures Ordered(before + [InsertOp(key, data)], high, Inserted(items, key, data, high))
    ensures Total(Inserted(items, key, data, high)) <= high
  {
    hide LastUse, Run, Total, Kept, Ordered;
    var op := InsertOp(key, data);
    if Has(items, key) {
      OrderedLater(before, high, op, items);
    } else {
      var all := [Item(key, data)] + items;
      OrderedFront(before, high, op, Item(key, data), items);
      KeptIsLongest(all, high);
      OrderedPrefix(before + [op], high, all, Kept(all, high));
    }
  }

  lemma OrderedPrefix(ops: seq<Op>, high: nat, items: seq<Item>, kept: seq<Item>)
    requires Ordered(ops, high, items) && kept <= items
    ensures Ordered(ops, high, kept)
  {
    hide LastUse;
  }

  lemma RemoveOrdered(before: seq<Op>, high: nat, items: seq<Item>, key: Key)
    requires items == Run(before, high) && Ordered(before, high, items) && Total(items) <= high
    ensures Ordered(before + [InvalidateOp(key)], high, Removed(items, key))
    ensures Total(Removed(items, key)) <= high
  {
    hide LastUse, Run, Total, Ordered, Without;
    OrderedLater(before, high, InvalidateOp(key), items);
    if Has(items, key) {
      TotalWithout(items, Position(items, key));
      OrderedWithout(before + [InvalidateOp(key)], high, items, Position(items, key));
    }
  }

  /** The number of the latest insertion of a key that took effect, counting from 1; 0 if none did. */
  function LatestInsert(ops: seq<Op>, high: nat, key: Key): nat {
    if ops == [] then 0
    else
      var before, op := ops[..|ops| - 1], ops[|ops| - 1];
      if op.InsertOp? && op.key == key && !Has(Run(before, high), key) then |ops|
      else LatestInsert(before, high, key)
  }

  /** A block holds what the latest insertion of its key that took effect brought. */
  ghost predicate IsLatest(ops: seq<Op>, high: nat, item: Item) {
    var n := LatestInsert(ops, high, item.key);
    1 <= n <= |ops| && ops[n - 1] == InsertOp(item.key, item.data)
  }

  lemma IsLatestLater(ops: seq<Op>, high: nat, item: Item)
    requires ops != [] && IsLatest(ops[..|ops| - 1], high, item)
    requires var op := ops[|ops| - 1];
      op.InsertOp? && op.key == item.key ==> Has(Run(ops[..|ops| - 1], high), item.key)
    ensures IsLatest(ops, high, item)
  {
    hide Run;
  }

  /** What a step leaves was there before, or is the block just inserted. */
  lemma StepItems(items: seq<Item>, op: Op, high: nat, item: Item)
    requires item in Step(items, op, high)
    ensures item in items || (op == InsertOp(item.key, item.data) && !Has(items, item.key))
  {
  }

  /** After every run each resident block holds the data of the latest insertion of its key that
      took effect. */
  lemma {:induction false} ResidentIsLatest(ops: seq<Op>, high: nat, item: Item)
    requires item in Run(ops, high)
    ensures IsLatest(ops, high, item)
  {
    hide Step, IsLatest;
    var before, op := ops[..|ops| - 1], ops[|ops| - 1];
    var items := Run(before, high);
    StepItems(items, op, high, item);
    if item in items {
      ResidentIsLatest(before, high, item);
      var i :| 0 <= i < |items| && items[i] == item;
      assert Has(items, item.key);
      IsLatestLater(ops, high, item);
    } else {
      JustInserted(ops, high, item);
    }
  }

  lemma JustInserted(ops: seq<Op>, high: nat, item: Item)
    requires ops != [] && ops[|ops| - 1] == InsertOp(item.key, item.data)
    requires !Has(Run(ops[..|ops| - 1], high), item.key)
    ensures IsLatest(ops, high, item)
  {
    hide Run;
  }

  // ---------- What each operation does to the blocks ----------

  /** The blocks of all other keys, in order. */
  function Others(items: seq<Item>, key: Key): seq<Item> {
    if items == [] then []
    else (if items[0].key == key then [] else [items[0]]) + Others(items[1..], key)
  }

  lemma {:induction false} OthersHas(items: seq<Item>, key: Key)
    ensures !Has(Others(items, key), key)
    ensures forall item :: item in Others(items, key) <==> item in items && item.key != key
  {
    if items != [] {
      OthersHas(items[1..], key);
    }
  }

  lemma {:induction false} OthersAll(items: seq<Item>, key: Key)
    requires !Has(items, key)
    ensures Others(items, key) == items
  {
    if items != [] {
      assert items[0].key != key;
      forall i | 0 <= i < |items[1..]|
        ensures items[1..][i].key != key
      {
        assert items[i + 1].key != key;
      }
      OthersAll(items[1..], key);
    }
  }

  lemma {:induction false} OthersWithout(items: seq<Item>, i: nat)
    requires Distinct(items) && i < |items|
    ensures Without(items, i) == Others(items, items[i].key)
  {
    if i == 0 {
      assert !Has(items[1..], items[0].key);
      OthersAll(items[1..], items[0].key);
    } else {
      OthersWithout(items[1..], i - 1);
      assert Without(items, i) == [items[0]] + Without(items[1..], i - 1);
    }
  }

  /** Invalidating a key leaves exactly the blocks of all other keys, in order. */
  lemma InvalidateRemoves(ops: seq<Op>, high: nat, key: Key)
    ensures Run(ops + [InvalidateOp(key)], high) == Others(Run(ops, high), key)
    ensures !Has(Run(ops + [InvalidateOp(key)], high), key)
  {
    hide Run, Has, Without, Total, Ordered;
    var items := Run(ops, high);
    RunSnoc(ops, high, InvalidateOp(key));
    RunInv(ops, high);
    OthersHas(items, key);
    if Has(items, key) {
      OthersWithout(items, Position(items, key));
    } else {
      OthersAll(items, key);
    }
  }

  lemma RunSnoc(ops: seq<Op>, high: nat, op: Op)
    ensures Run(ops + [op], high) == Step(Run(ops, high), op, high)
  {
    hide Step;
    assert (ops + [op])[..|ops|] == ops;
  }

  /** Inserting an absent key puts its block in front if it fits the watermark, before a prefix of what
      was there; if it does not fit, nothing is left. A cached key is left alone. */
  lemma InsertTakesEffect(ops: seq<Op>, high: nat, key: Key, data: seq<byte>)
    ensures var items, items' := Run(ops, high), Run(ops + [InsertOp(key, data)], high);
      && (Has(items, key) ==> items' == items)
      && (!Has(items, key) && |data| <= high ==>
            items' != [] && items'[0] == Item(key, data) && items'[1..] <= items)
      && (!Has(items, key) && |data| > high ==> items' == [])
  {
    hide Run, Has, Total, Kept;
    RunSnoc(ops, high, InsertOp(key, data));
    var items := Run(ops, high);
    if !Has(items, key) {
      FrontKept(Item(key, data), items, high);
    }
  }

  lemma FrontKept(item: Item, items: seq<Item>, high: nat)
    ensures var kept := Kept([item] + items, high);
      && (|item.data| <= high ==> kept != [] && kept[0] == item && kept[1..] <= items)
      && (|item.data| > high ==> kept == [])
  {
    hide Total, Kept;
    var all := [item] + items;
    var kept := Kept(all, high);
    KeptIsLongest(all, high);
    TotalOne(item);
    assert all[..1] == [item];
    if kept != [] {
      assert kept == [item] + kept[1..];
      TotalAppend([item], kept[1..]);
      assert kept[1..] == items[..|kept| - 1];
    }
  }

  /** A lookup changes nothing but the order: a hit moves its block to the front. */
  lemma LookupReorders(ops: seq<Op>, high: nat, key: Key)
    ensures var items, items' := Run(ops, high), Run(ops + [LookupOp(key)], high);
      && (!Has(items, key) ==> items' == items)
      && (Has(items, key) ==>
            items' == [items[Position(items, key)]] + Others(items, key) && items'[0].key == key)
  {
    hide Run, Has, Without, Total, Ordered;
    var items := Run(ops, high);
    RunSnoc(ops, high, LookupOp(key));
    RunInv(ops, high);
    if Has(items, key) {
      OthersWithout(items, Position(items, key));
    }
  }

  // ---------- The cache ----------

  /** A list node; iterators point to nodes and stay valid while others move. */
  datatype Node = Node(id: nat, key: Key)

  datatype Block = Block(data: seq<byte>, accessCount: nat, lastAccess: nat)

  function NodeIndex(list: seq<Node>, node: Node): (i: nat)
    requires node in list
    ensures i < |list| && list[i] == node
  {
    if list[0] == node then 0 else NodeIndex(list[1..], node) + 1
  }

  /** Each listed node is the one its key maps to. */
  ghost predicate ListedNodes(list: seq<Node>, nodes: map<Key, Node>) {
    forall i :: 0 <= i < |list| ==> list[i].key in nodes && nodes[list[i].key] == list[i]
  }

  /** Each mapped node is listed, under its own key. */
  ghost predicate MappedNodes(list: seq<Node>, nodes: map<Key, Node>) {
    forall k :: k in nodes ==> nodes[k] in list && nodes[k].key == k
  }

  ghost predicate DistinctNodes(list: seq<Node>) {
    forall i, j :: 0 <= i < j < |list| ==> list[i].key != list[j].key
  }

  /** The list, the node map and the blocks hold the same keys, each node under its own key. */
  ghost predicate Linked(list: seq<Node>, nodes: map<Key, Node>, entries: map<Key, Block>) {
    entries.Keys == nodes.Keys && ListedNodes(list, nodes) && MappedNodes(list, nodes) && DistinctNodes(list)
  }

  function DataOf(entries: map<Key, Block>, key: Key): seq<byte> {
    if key in entries then entries[key].data else []
  }

  /** The recency list these three represent. */
  ghost function Items(list: seq<Node>, entries: map<Key, Block>): (items: seq<Item>)
    ensures |items| == |list|
  {
    seq(|list|, i requires 0 <= i < |list| => Item(list[i].key, DataOf(entries, list[i].key)))
  }

  lemma ItemsKeys(list: seq<Node>, nodes: map<Key, Node>, entries: map<Key, Block>)
    requires Linked(list, nodes, entries)
    ensures Distinct(Items(list, entries))
    ensures forall k :: Has(Items(list, entries), k) <==> k in entries
  {
    forall k
      ensures Has(Items(list, entries), k) <==> k in entries
    {
      if k in entries {
        var i := NodeIndex(list, nodes[k]);
        assert Items(list, entries)[i].key == k;
      }
    }
  }

  /** The node of a key lies where the key does. */
  lemma NodePlace(list: seq<Node>, nodes: map<Key, Node>, entries: map<Key, Block>, key: Key)
    requires Linked(list, nodes, entries) && key in entries
    ensures Has(Items(list, entries), key)
    ensures Position(Items(list, entries), key) == NodeIndex(list, nodes[key])
  {
    ItemsKeys(list, nodes, entries);
    var items := Items(list, entries);
    var i, j := Position(items, key), NodeIndex(list, nodes[key]);
    assert items[i].key == key && items[j].key == key;
  }

  /** Unlinking one node, its map entry and its block. */
  lemma Unlink(list: seq<Node>, nodes: map<Key, Node>, entries: map<Key, Block>, i: nat)
    requires Linked(list, nodes, entries) && i < |list|
    ensures var key, rest := list[i].key, list[..i] + list[i + 1..];
      && Linked(rest, nodes - {key}, entries - {key})
      && Items(rest, entries - {key}) == Without(Items(list, entries), i)
  {
    hide ListedNodes, MappedNodes, DistinctNodes, Items, Without;
    var key, rest := list[i].key, list[..i] + list[i + 1..];
    UnlinkDistinct(list, i);
    UnlinkListed(list, nodes, i);
    UnlinkMapped(list, nodes, i);
    UnlinkItems(list, entries, i);
    assert (nodes - {key}).Keys == nodes.Keys - {key} && (entries - {key}).Keys == entries.Keys - {key};
  }

  lemma UnlinkDistinct(list: seq<Node>, i: nat)
    requires DistinctNodes(list) && i < |list|
    ensures DistinctNodes(list[..i] + list[i + 1..])
    ensures var rest := list[..i] + list[i + 1..];
      forall j :: 0 <= j < |rest| ==> rest[j].key != list[i].key
  {
  }

  lemma UnlinkListed(list: seq<Node>, nodes: map<Key, Node>, i: nat)
    requires ListedNodes(list, nodes) && DistinctNodes(list) && i < |list|
    ensures ListedNodes(list[..i] + list[i + 1..], nodes - {list[i].key})
  {
    UnlinkDistinct(list, i);
  }

  lemma UnlinkMapped(list: seq<Node>, nodes: map<Key, Node>, i: nat)
    requires MappedNodes(list, nodes) && i < |list|
    ensures MappedNodes(list[..i] + list[i + 1..], nodes - {list[i].key})
  {
    var rest := list[..i] + list[i + 1..];
    forall k | k in nodes && k != list[i].key
      ensures nodes[k] in rest
    {
      var j :| 0 <= j < |list| && list[j] == nodes[k];
      assert j < i ==> rest[j] == nodes[k];
      assert j > i ==> rest[j - 1] == nodes[k];
    }
  }

  lemma UnlinkItems(list: seq<Node>, entries: map<Key, Block>, i: nat)
    requires DistinctNodes(list) && i < |list|
    ensures Items(list[..i] + list[i + 1..], entries - {list[i].key}) == Without(Items(list, entries), i)
  {
    UnlinkDistinct(list, i);
  }

  /** Linking a node for a new key in front. */
  lemma Link(list: seq<Node>, nodes: map<Key, Node>, entries: map<Key, Block>, node: Node, block: Block)
    requires Linked(list, nodes, entries) && node.key !in entries
    ensures var nodes', entries' := nodes[node.key := node], entries[node.key := block];
      && Linked([node] + list, nodes', entries')
      && Items([node] + list, entries') == [Item(node.key, block.data)] + Items(list, entries)
  {
    hide MappedNodes, Items;
    LinkMapped(list, nodes, node);
    LinkItems(list, entries, node, block);
  }

  lemma LinkMapped(list: seq<Node>, nodes: map<Key, Node>, node: Node)
    requires MappedNodes(list, nodes) && node.key !in nodes
    ensures MappedNodes([node] + list, nodes[node.key := node])
  {
    var all := [node] + list;
    assert all[0] == node;
    forall k | k in nodes
      ensures nodes[k] in all
    {
      var j :| 0 <= j < |list| && list[j] == nodes[k];
      assert all[j + 1] == nodes[k];
    }
  }

  lemma LinkItems(list: seq<Node>, entries: map<Key, Block>, node: Node, block: Block)
    requires forall i :: 0 <= i < |list| ==> list[i].key != node.key
    ensures Items([node] + list, entries[node.key := block]) == [Item(node.key, block.data)] + Items(list, entries)
  {
  }

  class L3SsdCache {
    const high: nat  // bytes at the high watermark
    var entries: map<Key, Block>
    var list: seq<Node>
    var nodes: map<Key, Node>
    var usedBytes: nat
    var hits: nat
    var misses: nat
    var nextId: nat

    ghost predicate Valid()
      reads this
    {
      && Linked(list, nodes, entries)
      && usedBytes == Total(Items(list, entries)) <= high
    }

    ghost function View(): seq<Item>
      requires Linked(list, nodes, entries)
      reads this
    {
      Items(list, entries)
    }

    constructor (high: nat)
      ensures Valid() && View() == [] && this.high == high
    {
      this.high := high;
      entries, list, nodes := map[], [], map[];
      usedBytes, hits, misses, nextId := 0, 0, 0, 0;
    }

    /** A hit moves the block's node to the front; the iterator to it stays valid. */
    method Lookup(key: Key, now: nat) returns (hit: bool, data: seq<byte>)
      requires Valid()
      modifies this
      ensures Valid() && View() == Touch(old(View()), key)
      ensures hit == Has(old(View()), key)
      ensures data == if hit then old(View())[Position(old(View()), key)].data else []
    {
      hide Total, Linked, Items, Has;
      ItemsKeys(list, nodes, entries);
      TotalTouch(Items(list, entries), key);
      if key in entries {
        NodePlace(list, nodes, entries, key);
        LookupLinks(list, nodes, entries, key, now);
        hits := hits + 1;
        var b := entries[key];
        entries := entries[key := Used(b, now)];
        var i := NodeIndex(list, nodes[key]);
        list := [list[i]] + (list[..i] + list[i + 1..]);
        return true, b.data;
      }
      misses := misses + 1;
      return false, [];
    }

    /** A key that is already cached is left as it is, with its old data and place. */
    method Insert(key: Key, data: seq<byte>, now: nat)
      requires Valid()
      modifies this
      ensures Valid() && View() == Inserted(old(View()), key, data, high)
    {
      hide Total, Kept, Linked, Items, Has;
      ghost var items := View();
      ItemsKeys(list, nodes, entries);
      if key in entries {
        return;
      }
      var node := Node(nextId, key);
      Link(list, nodes, entries, node, Block(data, 1, now));
      TotalAppend([Item(key, data)], items);
      TotalOne(Item(key, data));
      usedBytes := usedBytes + |data|;
      nextId := nextId + 1;
      list := [node] + list;
      nodes := nodes[key := node];
      entries := entries[key := Block(data, 1, now)];
      EvictIfNeeded();
    }

    /** Drops the least recently used blocks until the watermark is met. */
    method EvictIfNeeded()
      requires Linked(list, nodes, entries) && usedBytes == Total(Items(list, entries))
      modifies this
      ensures Valid() && View() == Kept(old(View()), high)
    {
      hide Linked, Items;
      while usedBytes > high && list != []
        invariant Linked(list, nodes, entries) && usedBytes == Total(Items(list, entries))
        invariant Kept(Items(list, entries), high) == Kept(old(View()), high)
        decreases |list|
      {
        ghost var items := Items(list, entries);
        var n := |list| - 1;
        EvictLinks(list, nodes, entries);
        var victim := list[n].key;
        list := list[..n];
        nodes := nodes - {victim};
        if victim in entries {
          usedBytes := usedBytes - |entries[victim].data|;
          entries := entries - {victim};
        }
      }
      if list == [] {
        TotalOfNone(list, entries);
      }
    }

    method Invalidate(key: Key)
      requires Valid()
      modifies this
      ensures Valid() && View() == Removed(old(View()), key)
    {
      hide Total, Linked, Items, Has;
      ghost var items := View();
      ItemsKeys(list, nodes, entries);
      if key in entries {
        NodePlace(list, nodes, entries, key);
        NodeKey(list, nodes, entries, key);
        var i := NodeIndex(list, nodes[key]);
        Unlink(list, nodes, entries, i);
        TotalWithout(items, i);
        usedBytes := usedBytes - |entries[key].data|;
        if key in nodes {
          list := list[..i] + list[i + 1..];
          nodes := nodes - {key};
        }
        entries := entries - {key};
      }
    }
  }

  function Used(b: Block, now: nat): Block {
    b.(accessCount := b.accessCount + 1, lastAccess := now)
  }

  lemma NodeKey(list: seq<Node>, nodes: map<Key, Node>, entries: map<Key, Block>, key: Key)
    requires Linked(list, nodes, entries) && key in entries
    ensures key in nodes && nodes[key] in list && nodes[key].key == key
    ensures var i := NodeIndex(list, nodes[key]);
      list[i].key == key && Items(list, entries)[i] == Item(key, entries[key].data)
  {
  }

  lemma LookupLinks(list: seq<Node>, nodes: map<Key, Node>, entries: map<Key, Block>, key: Key, now: nat)
    requires Linked(list, nodes, entries) && key in entries
    ensures key in nodes && nodes[key] in list
    ensures var i, entries' := NodeIndex(list, nodes[key]), entries[key := Used(entries[key], now)];
      var moved := [list[i]] + (list[..i] + list[i + 1..]);
      && Linked(moved, nodes, entries')
      && Items(moved, entries') == [Items(list, entries)[i]] + Without(Items(list, entries), i)
      && Items(list, entries)[i].data == entries[key].data
  {
    hide Linked, Items, Without;
    NodeKey(list, nodes, entries, key);
    var i := NodeIndex(list, nodes[key]);
    Unlink(list, nodes, entries, i);
    Link(list[..i] + list[i + 1..], nodes - {key}, entries - {key}, list[i], Used(entries[key], now));
    assert (nodes - {key})[key := list[i]] == nodes;
    assert (entries - {key})[key := Used(entries[key], now)] == entries[key := Used(entries[key], now)];
  }

  lemma EvictLinks(list: seq<Node>, nodes: map<Key, Node>, entries: map<Key, Block>)
    requires Linked(list, nodes, entries) && list != []
    ensures var n := |list| - 1;
      var victim := list[n].key;
      && victim in entries
      && Linked(list[..n], nodes - {victim}, entries - {victim})
      && Items(list[..n], entries - {victim}) == Items(list, entries)[..n]
      && Items(list, entries)[n].data == entries[victim].data
  {
    var n := |list| - 1;
    Unlink(list, nodes, entries, n);
    assert list[..n] + list[n + 1..] == list[..n];
  }

  lemma TotalOfNone(list: seq<Node>, entries: map<Key, Block>)
    requires list == []
    ensures Total(Items(list, entries)) == 0
  {
  }
}
