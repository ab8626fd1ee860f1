/** The visualizer's bounded queue, its label map and the buttons that mirror it.

    Callers add items under labels that a counter makes unique; the main thread drains them, keeps
    the most recent ones, and evicts the rest together with their buttons. While an item is played
    all label buttons are hidden. */
module VisualizerQueue {
  import opened Wrappers

  // ---------- Labels ----------

  const DIGITS := "0123456789"

  predicate IsDigit(c: char) {
    '0' <= c <= '9'
  }

  function Digit(d: nat): (c: char)
    requires d < 10
    ensures IsDigit(c)
  {
    DIGITS[d]
  }

  function Decimal(n: nat): (s: string)
    ensures s != [] && forall i :: 0 <= i < |s| ==> IsDigit(s[i])
  {
    if n < 10 then [Digit(n)] else Decimal(n / 10) + [Digit(n % 10)]
  }

  /** The number that a string of digits denotes. */
  function ValueOf(s: string): int {
    if s == [] then 0 else 10 * ValueOf(s[..|s| - 1]) + (s[|s| - 1] as int - '0' as int)
  }

  lemma {:induction false} ValueOfDecimal(n: nat)
    ensures ValueOf(Decimal(n)) == n
  {
    if n >= 10 {
      ValueOfDecimal(n / 10);
      assert Decimal(n)[..|Decimal(n)| - 1] == Decimal(n / 10);
    }
  }

  /** The counter, a colon and the caller's text. */
  function LabelOf(counter: nat, text: string): string {
    Decimal(counter) + ": " + text
  }

  /** Labels with different counters differ, whatever the texts. */
  lemma LabelsDistinct(m: nat, n: nat, s: string, t: string)
    requires LabelOf(m, s) == LabelOf(n, t)
    ensures m == n
  {
    var a, b := Decimal(m), Decimal(n);
    var l := LabelOf(m, s);
    assert l == a + ": " + s && l == b + ": " + t;
    assert l[|a|] == ':' && l[|b|] == ':';
    assert a == l[..|a|] && b == l[..|b|];
    ValueOfDecimal(m);
    ValueOfDecimal(n);
  }

  datatype Error = PopFromEmpty

  // ---------- Entries ----------

  datatype Entry<Item> = Entry(counter: nat, text: string, item: Item)

  function Name<Item>(e: Entry<Item>): string {
    LabelOf(e.counter, e.text)
  }

  function Names<Item>(s: seq<Entry<Item>>): (r: seq<string>)
    ensures |r| == |s|
  {
    seq(|s|, i requires 0 <= i < |s| => Name(s[i]))
  }

  /** The last n of s, or all of it. */
  function Last<T>(s: seq<T>, n: nat): (r: seq<T>)
    ensures |r| == if |s| <= n then |s| else n
  {
    s[Excess(s, n)..]
  }

  lemma DropThenAppend<T>(s: seq<T>, t: seq<T>, n: nat)
    requires n <= |s|
    ensures s[n..] + t == (s + t)[n..]
  {
  }

  /** How many entries are too many. */
  function Excess<T>(s: seq<T>, n: nat): nat {
    if |s| <= n then 0 else |s| - n
  }

  ghost predicate Rising<Item>(s: seq<Entry<Item>>, bound: nat) {
    && (forall i :: 0 <= i < |s| ==> s[i].counter < bound)
    && (forall i, j :: 0 <= i < j < |s| ==> s[i].counter < s[j].counter)
  }

  lemma RisingNamesDistinct<Item>(s: seq<Entry<Item>>, bound: nat, i: nat, j: nat)
    requires Rising(s, bound) && i < |s| && j < |s| && Name(s[i]) == Name(s[j])
    ensures i == j
  {
    LabelsDistinct(s[i].counter, s[j].counter, s[i].text, s[j].text);
  }

  ghost function NameSet<Item>(s: seq<Entry<Item>>): set<string> {
    set e | e in s :: Name(e)
  }

  /** The items of a list of entries under their labels. */
  ghost function ItemMap<Item>(s: seq<Entry<Item>>): map<string, Item> {
    if s == [] then map[] else ItemMap(s[..|s| - 1])[Name(s[|s| - 1]) := s[|s| - 1].item]
  }

  lemma {:induction false} ItemMapKeys<Item>(s: seq<Entry<Item>>)
    ensures ItemMap(s).Keys == NameSet(s)
  {
    if s != [] {
      ItemMapKeys(s[..|s| - 1]);
      assert s == s[..|s| - 1] + [s[|s| - 1]];
    }
  }

  lemma {:induction false} ItemUnderLabel<Item>(s: seq<Entry<Item>>, bound: nat, i: nat)
    requires Rising(s, bound) && i < |s|
    ensures Labelled(s, i)
    decreases |s|
  {
    if i < |s| - 1 {
      ItemUnderLabel(s[..|s| - 1], bound, i);
      if Name(s[i]) == Name(s[|s| - 1]) { RisingNamesDistinct(s, bound, i, |s| - 1); }
    }
  }

  /** Forgetting the oldest label is forgetting the oldest entry. */
  lemma {:induction false} ItemMapDropFirst<Item>(s: seq<Entry<Item>>, bound: nat)
    requires s != [] && Rising(s, bound)
    ensures ItemMap(s) - {Name(s[0])} == ItemMap(s[1..])
    decreases |s|
  {
    if |s| > 1 {
      var init := s[..|s| - 1];
      ItemMapDropFirst(init, bound);
      assert s[1..][..|s[1..]| - 1] == init[1..];
      assert Name(s[0]) != Name(s[|s| - 1]) by {
        if Name(s[0]) == Name(s[|s| - 1]) { RisingNamesDistinct(s, bound, 0, |s| - 1); }
      }
    } else {
      assert s[..0] == [] && s[1..] == [];
    }
  }

  lemma NameSetDropFirst<Item>(s: seq<Entry<Item>>, bound: nat)
    requires s != [] && Rising(s, bound)
    ensures NameSet(s) - {Name(s[0])} == NameSet(s[1..])
    ensures Name(s[0]) in NameSet(s)
  {
    forall e | e in s[1..] ensures Name(e) != Name(s[0]) {
      var i :| 0 <= i < |s[1..]| && s[1..][i] == e;
      if Name(s[0]) == Name(s[i + 1]) { RisingNamesDistinct(s, bound, 0, i + 1); }
    }
    assert s == [s[0]] + s[1..];
  }

  // ---------- The visualizer ----------

  class DracoVisualizer<Item> {
    const maxQueueSize: nat
    const idButton: string
    var incomingQueue: seq<(string, Item)>
    var queueCounter: nat
    var labelVizMap: map<string, Item>
    var labelOrder: seq<string>
    var buttons: set<string>
    /** Entries waiting, entries ever drained, how many were dropped from the queue, and a bound
        between the counters of drained and of waiting entries. */
    ghost var pending: seq<Entry<Item>>
    ghost var drained: seq<Entry<Item>>
    ghost var dropped: nat
    ghost var horizon: nat

    /** The entries on display: the most recent ones ever drained. */
    ghost function Shown(): seq<Entry<Item>>
      reads this
    {
      Last(drained, maxQueueSize)
    }

    ghost predicate QueueValid()
      reads this
    {
      && incomingQueue == Waiting(pending)
      && Rising(drained, horizon) && Rising(pending, queueCounter) && horizon <= queueCounter
      && (forall i :: 0 <= i < |pending| ==> horizon <= pending[i].counter)
      && queueCounter == |pending| + dropped + |drained|
    }

    /** The label list, the map and the buttons hold the given entries. */
    ghost predicate Displays(entries: seq<Entry<Item>>)
      reads this
    {
      && labelOrder == Names(entries)
      && labelVizMap == ItemMap(entries)
      && buttons == NameSet(entries) + {idButton}
    }

    ghost predicate Valid()
      reads this
    {
      && QueueValid() && |pending| <= maxQueueSize
      && Displays(Shown())
      && idButton != [] && !IsDigit(idButton[0])
    }

    /** The visualizer's own button shows the hash of the constraints. */
    constructor (capacity: nat, hash: nat)
      ensures Valid() && maxQueueSize == capacity && idButton == "ID: " + Decimal(hash)
      ensures drained == [] && pending == [] && dropped == 0
    {
      maxQueueSize, idButton := capacity, "ID: " + Decimal(hash);
      incomingQueue, queueCounter, labelVizMap, labelOrder := [], 0, map[], [];
      buttons := {"ID: " + Decimal(hash)};
      pending, drained, dropped, horizon := [], [], 0, 0;
      new;
      assert NameSet<Item>([]) == {};
    }

    method PopIncoming()
      requires QueueValid() && incomingQueue != []
      modifies this`incomingQueue, this`pending, this`dropped
      ensures QueueValid() && pending == old(pending)[1..]
    {
      incomingQueue := incomingQueue[1..];
      pending := pending[1..];
      dropped := dropped + 1;
    }

    /** Adds an item, evicting the oldest pending ones when the queue is full. Every entry ever added
        is waiting, dropped or drained. Without capacity it would pop an empty queue. */
    method Add(item: Item, text: string) returns (error: Option<Error>)
      requires Valid()
      modifies this`incomingQueue, this`queueCounter, this`pending, this`dropped
      ensures Valid()
      ensures error == Some(PopFromEmpty) <==> maxQueueSize == 0
      ensures error.Some? ==> pending == old(pending) && queueCounter == old(queueCounter) && dropped == old(dropped)
      ensures error.None? ==>
                && pending == Last(old(pending), maxQueueSize - 1) + [Entry(old(queueCounter), text, item)]
                && queueCounter == old(queueCounter) + 1 == |pending| + dropped + |drained|
    {
      error := MakeRoom();
      if error.None? {
        PushIncoming(item, text);
      }
    }

    method MakeRoom() returns (error: Option<Error>)
      requires QueueValid() && |pending| <= maxQueueSize
      modifies this`incomingQueue, this`pending, this`dropped
      ensures QueueValid()
      ensures error == Some(PopFromEmpty) <==> maxQueueSize == 0
      ensures error.Some? ==> pending == old(pending) && dropped == old(dropped)
      ensures error.None? ==> pending == Last(old(pending), maxQueueSize - 1)
    {
      ghost var k := 0;
      while |incomingQueue| >= maxQueueSize
        invariant QueueValid()
        invariant 0 <= k <= |old(pending)| && pending == old(pending)[k..]
        invariant k == 0 || |pending| >= maxQueueSize - 1
        invariant maxQueueSize == 0 ==> dropped == old(dropped)
        decreases |incomingQueue|
      {
        if incomingQueue == [] {
          return Some(PopFromEmpty);
        }
        PopIncoming();
        k := k + 1;
      }
      assert k == Excess(old(pending), maxQueueSize - 1);
      error := None;
    }

    method PushIncoming(item: Item, text: string)
      requires QueueValid()
      modifies this`incomingQueue, this`queueCounter, this`pending
      ensures QueueValid()
      ensures pending == old(pending) + [Entry(old(queueCounter), text, item)] && queueCounter == old(queueCounter) + 1
    {
      ghost var e := Entry(queueCounter, text, item);
      incomingQueue := incomingQueue + [(LabelOf(queueCounter, text), item)];
      pending := pending + [e];
      queueCounter := queueCounter + 1;
    }

    /** Moves the oldest pending entry into the label map and gives it a button. */
    method DrainOne(ghost display: seq<Entry<Item>>)
      requires QueueValid() && incomingQueue != [] && Displays(display)
      modifies this
      ensures QueueValid() && Displays(display + [old(pending)[0]])
      ensures drained == old(drained) + [old(pending)[0]] && pending == old(pending)[1..]
      ensures queueCounter == old(queueCounter) && dropped == old(dropped)
    {
      ghost var e := pending[0];
      var front := TakeFront();
      var (name, item) := front;
      labelVizMap := labelVizMap[name := item];
      labelOrder := labelOrder + [name];
      buttons := buttons + {name};
    }

    method TakeFront() returns (front: (string, Item))
      requires QueueValid() && incomingQueue != []
      modifies this`incomingQueue, this`pending, this`drained, this`horizon
      ensures QueueValid()
      ensures front == (Name(old(pending)[0]), old(pending)[0].item)
      ensures drained == old(drained) + [old(pending)[0]] && pending == old(pending)[1..]
    {
      ghost var e := pending[0];
      front := incomingQueue[0];
      incomingQueue := incomingQueue[1..];
      drained, pending, horizon := drained + [e], pending[1..], e.counter + 1;
    }

    /** Forgets the oldest label; it has a button to delete. */
    method EvictOne(ghost display: seq<Entry<Item>>)
      requires Displays(display) && display != [] && Rising(display, horizon)
      requires idButton != [] && !IsDigit(idButton[0])
      modifies this`labelOrder, this`labelVizMap, this`buttons
      ensures Displays(display[1..])
    {
      var oldest := labelOrder[0];
      ItemMapDropFirst(display, horizon);
      NameSetDropFirst(display, horizon);
      labelOrder := labelOrder[1..];
      labelVizMap := labelVizMap - {oldest};
      assert oldest in buttons;
      buttons := buttons - {oldest};
    }

    /** One pass of the main thread over the queue: drains it, then evicts the oldest labels beyond
        the capacity. */
    method DrainAndEvict()
      requires Valid()
      modifies this
      ensures Valid()
      ensures drained == old(drained) + old(pending) && pending == [] && incomingQueue == []
      ensures queueCounter == old(queueCounter) && dropped == old(dropped)
    {
      ghost var shown := Shown();
      ghost var first := Excess(drained, maxQueueSize);
      DropThenAppend(drained, pending, first);
      DrainAll(shown);
      EvictAll(first);
    }

    method DrainAll(ghost shown: seq<Entry<Item>>)
      requires QueueValid() && Displays(shown)
      modifies this
      ensures QueueValid() && Displays(shown + old(pending))
      ensures drained == old(drained) + old(pending) && pending == []
      ensures queueCounter == old(queueCounter) && dropped == old(dropped)
    {
      ghost var n := 0;
      assert shown + old(pending)[..0] == shown;
      while incomingQueue != []
        invariant QueueValid() && queueCounter == old(queueCounter) && dropped == old(dropped)
        invariant 0 <= n <= |old(pending)|
        invariant pending == old(pending)[n..] && drained == old(drained) + old(pending)[..n]
        invariant Displays(shown + old(pending)[..n])
        decreases |incomingQueue|
      {
        assert old(pending)[..n + 1] == old(pending)[..n] + [pending[0]];
        assert (shown + old(pending)[..n]) + [pending[0]] == shown + old(pending)[..n + 1];
        DrainOne(shown + old(pending)[..n]);
        n := n + 1;
      }
      assert old(pending)[..n] == old(pending);
    }

    method EvictAll(ghost first: nat)
      requires first <= Excess(drained, maxQueueSize) && Displays(drained[first..]) && Rising(drained, horizon)
      requires idButton != [] && !IsDigit(idButton[0])
      modifies this`labelOrder, this`labelVizMap, this`buttons
      ensures Displays(Shown())
    {
      ghost var k := first;
      while |labelOrder| > maxQueueSize
        invariant 0 <= k <= Excess(drained, maxQueueSize) && Displays(drained[k..])
        invariant |labelOrder| == |drained| - k
        decreases |labelOrder|
      {
        EvictNext(k);
        k := k + 1;
      }
      assert k == Excess(drained, maxQueueSize);
    }

    method EvictNext(ghost k: nat)
      requires k < |drained| && Displays(drained[k..]) && Rising(drained, horizon)
      requires idButton != [] && !IsDigit(idButton[0])
      modifies this`labelOrder, this`labelVizMap, this`buttons
      ensures Displays(drained[k + 1..]) && |labelOrder| == |old(labelOrder)| - 1
    {
      EvictOne(drained[k..]);
      assert drained[k..][1..] == drained[k + 1..];
    }

    /** The label of an entry on display starts with a digit; the visualizer's own buttons do not. */
    lemma ShownLabels(name: string)
      requires Valid() && name in labelVizMap
      ensures name != [] && IsDigit(name[0]) && name in buttons && name != idButton
    {
      ItemMapKeys(Shown());
      var e :| e in Shown() && Name(e) == name;
    }

    /** Plays a clicked item: hides every label button, shows the item's own buttons, and brings the
        label buttons back. The demand that every label has a button holds. The buttons seen during
        play are returned. */
    method Play(clicked: string, ownButtons: set<string>) returns (during: set<string>)
      requires Valid() && clicked in labelVizMap
      requires forall b :: b in ownButtons ==> b == clicked || (b != [] && !IsDigit(b[0]) && b != idButton)
      modifies this`buttons
      ensures Valid() && buttons == old(buttons)
      ensures during == {idButton} + ownButtons
    {
      ItemMapKeys(Shown());
      ShownLabels(clicked);
      var labels := labelVizMap.Keys;
      assert idButton !in labels by {
        if idButton in labels { ShownLabels(idButton); }
      }
      HideAll(labels);
      buttons := buttons + ownButtons;
      during := buttons;
      buttons := buttons - ownButtons;
      assert buttons == {idButton};
      ShowAll(labels);
    }

    method HideAll(labels: set<string>)
      requires labels <= buttons
      modifies this`buttons
      ensures buttons == old(buttons) - labels
    {
      var todo := labels;
      while todo != {}
        invariant todo <= labels && buttons == old(buttons) - (labels - todo)
        decreases |todo|
      {
        var name :| name in todo;
        assert name in buttons;
        buttons := buttons - {name};
        todo := todo - {name};
      }
    }

    method ShowAll(labels: set<string>)
      modifies this`buttons
      ensures buttons == old(buttons) + labels
    {
      var todo := labels;
      while todo != {}
        invariant todo <= labels && buttons == old(buttons) + (labels - todo)
        decreases |todo|
      {
        var name :| name in todo;
        buttons := buttons + {name};
        todo := todo - {name};
      }
    }

    /** What a reader of the label list may rely on, at any time between calls: the map's keys are
        the listed labels, which are distinct; each has a button besides the visualizer's own. */
    lemma LabelsAreRecent()
      requires Valid()
      ensures labelVizMap.Keys == (set name | name in labelOrder)
      ensures forall i, j :: 0 <= i < j < |labelOrder| ==> labelOrder[i] != labelOrder[j]
      ensures buttons == labelVizMap.Keys + {idButton} && idButton !in labelVizMap
    {
      var shown := Shown();
      ItemMapKeys(shown);
      forall i, j | 0 <= i < j < |labelOrder| ensures labelOrder[i] != labelOrder[j] {
        if labelOrder[i] == labelOrder[j] { RisingNamesDistinct(shown, horizon, i, j); }
      }
      if idButton in labelVizMap { ShownLabels(idButton); }
      NamesMembers(shown);
    }

    /** The labels are those of the entries drained last, in order, each for its entry's item. */
    lemma LabelsOfLatest(i: nat)
      requires Valid() && i < |labelOrder|
      ensures |labelOrder| == if |drained| <= maxQueueSize then |drained| else maxQueueSize
      ensures IsLabelOf(labelOrder[i], labelVizMap, drained[|drained| - |labelOrder| + i])
    {
      LatestLabelled(drained, maxQueueSize, horizon, i);
    }
  }

  /** The label is the entry's counter, a colon and its text, and it stands for the entry's item. */
  ghost predicate IsLabelOf<Item>(name: string, items: map<string, Item>, e: Entry<Item>) {
    name == Decimal(e.counter) + ": " + e.text && name in items && items[name] == e.item
  }

  /** The last n of s are as they stand at its end. */
  lemma LastAt<T>(s: seq<T>, n: nat, i: nat)
    requires i < |Last(s, n)|
    ensures Last(s, n)[i] == s[|s| - |Last(s, n)| + i]
  {
  }

  lemma LatestLabelled<Item>(drained: seq<Entry<Item>>, n: nat, bound: nat, i: nat)
    requires Rising(drained, bound) && i < |Last(drained, n)|
    ensures IsLabelOf(Names(Last(drained, n))[i], ItemMap(Last(drained, n)),
              drained[|drained| - |Last(drained, n)| + i])
  {
    var s := Last(drained, n);
    LastAt(drained, n, i);
    assert Rising(s, bound) by {
      forall k | 0 <= k < |s| ensures s[k] == drained[|drained| - |s| + k] { LastAt(drained, n, k); }
    }
    ItemUnderLabel(s, bound, i);
  }

  /** The i-th entry is found under its label. */
  ghost predicate Labelled<Item>(s: seq<Entry<Item>>, i: nat)
    requires i < |s|
  {
    Name(s[i]) in ItemMap(s) && ItemMap(s)[Name(s[i])] == s[i].item
  }

  /** The queue's pairs for a list of entries. */
  function Waiting<Item>(s: seq<Entry<Item>>): (r: seq<(string, Item)>)
    ensures |r| == |s|
  {
    seq(|s|, i requires 0 <= i < |s| => (Name(s[i]), s[i].item))
  }

  lemma NamesMembers<Item>(s: seq<Entry<Item>>)
    ensures forall name :: name in Names(s) <==> name in NameSet(s)
  {
    forall name ensures name in Names(s) <==> name in NameSet(s) {
      if name in NameSet(s) {
        var e :| e in s && Name(e) == name;
        var i :| 0 <= i < |s| && s[i] == e;
        assert Names(s)[i] == name;
      }
      if name in Names(s) {
        var i :| 0 <= i < |s| && Names(s)[i] == name;
        assert s[i] in s;
      }
    }
  }
}
