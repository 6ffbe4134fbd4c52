/**
 * Footnotes of a pinout page (notes.py): each footnote gets its number the
 * first time it is referenced, from one counter shared by every footnote;
 * a collection of footnotes is sorted by number before it is listed, and
 * only the referenced ones are listed, as `<number>. <text>`.
 */
module Notes {
  import opened Wrappers
  import opened Strings

  // ---------------------------------------------------------------------------
  // Stable sorting by a numeric key

  /** An item paired with the key it is sorted by. */
  datatype Keyed<T> = Keyed(key: nat, item: T)

  predicate Sorted<T>(xs: seq<Keyed<T>>) {
    forall i, j :: 0 <= i < j < |xs| ==> xs[i].key <= xs[j].key
  }

  /** The items with key `k`, in their order in `xs`. */
  function WithKey<T>(xs: seq<Keyed<T>>, k: nat): (r: seq<Keyed<T>>)
    ensures forall i :: 0 <= i < |r| ==> r[i].key == k
  {
    if xs == [] then []
    else (if xs[0].key == k then [xs[0]] else []) + WithKey(xs[1..], k)
  }

  /** The items with a non-zero key, in their order in `xs`. */
  function Used<T>(xs: seq<Keyed<T>>): (r: seq<Keyed<T>>)
    ensures forall i :: 0 <= i < |r| ==> r[i].key > 0
  {
    if xs == [] then []
    else (if xs[0].key > 0 then [xs[0]] else []) + Used(xs[1..])
  }

  /** `x` placed before the first item whose key is at least its own. */
  function Insert<T>(x: Keyed<T>, xs: seq<Keyed<T>>): seq<Keyed<T>> {
    if xs == [] || x.key <= xs[0].key then [x] + xs
    else [xs[0]] + Insert(x, xs[1..])
  }

  /** Stable sort by key: equal keys keep their order. */
  function SortByKey<T>(xs: seq<Keyed<T>>): seq<Keyed<T>> {
    if xs == [] then [] else Insert(xs[0], SortByKey(xs[1..]))
  }

  lemma {:induction false} InsertSorted<T>(x: Keyed<T>, xs: seq<Keyed<T>>)
    requires Sorted(xs)
    ensures Sorted(Insert(x, xs))
    ensures var r := Insert(x, xs); |r| == |xs| + 1 && r[0].key == (if xs == [] || x.key <= xs[0].key then x.key else xs[0].key)
  {
    if xs != [] && x.key > xs[0].key {
      InsertSorted(x, xs[1..]);
      var r := Insert(x, xs);
      var tail := Insert(x, xs[1..]);
      assert r == [xs[0]] + tail;
      forall i, j | 0 <= i < j < |r| ensures r[i].key <= r[j].key {
        if i == 0 {
          assert r[j] == tail[j - 1];
          if xs[1..] != [] && x.key > xs[1..][0].key {
            assert tail[0].key == xs[1].key;
          }
          assert tail[0].key <= tail[j - 1].key || j - 1 == 0;
        } else {
          assert r[i] == tail[i - 1] && r[j] == tail[j - 1];
        }
      }
    }
  }

  lemma {:induction false} InsertMultiset<T>(x: Keyed<T>, xs: seq<Keyed<T>>)
    ensures multiset(Insert(x, xs)) == multiset([x] + xs)
  {
    if xs != [] && x.key > xs[0].key {
      InsertMultiset(x, xs[1..]);
      assert xs == [xs[0]] + xs[1..];
    }
  }

  /** Inserting `x` adds it to the items of its own key, in front, and leaves
      every other key's items as they were. */
  lemma {:induction false} InsertWithKey<T>(x: Keyed<T>, xs: seq<Keyed<T>>, k: nat)
    ensures WithKey(Insert(x, xs), k) == (if x.key == k then [x] else []) + WithKey(xs, k)
  {
    if xs != [] && x.key > xs[0].key {
      InsertWithKey(x, xs[1..], k);
      assert Insert(x, xs)[1..] == Insert(x, xs[1..]);
      assert Insert(x, xs)[0] == xs[0];
    } else {
      assert Insert(x, xs)[1..] == xs;
    }
  }

  /** The sort orders by key. */
  lemma {:induction false} SortByKeySorted<T>(xs: seq<Keyed<T>>)
    ensures Sorted(SortByKey(xs))
    ensures |SortByKey(xs)| == |xs|
  {
    if xs != [] {
      SortByKeySorted(xs[1..]);
      InsertSorted(xs[0], SortByKey(xs[1..]));
    }
  }

  /** The sort is a permutation. */
  lemma {:induction false} SortByKeyPermutes<T>(xs: seq<Keyed<T>>)
    ensures multiset(SortByKey(xs)) == multiset(xs)
  {
    if xs != [] {
      SortByKeyPermutes(xs[1..]);
      InsertMultiset(xs[0], SortByKey(xs[1..]));
      assert xs == [xs[0]] + xs[1..];
    }
  }

  /** The sort is stable: the items of each key keep their relative order. */
  lemma {:induction false} SortByKeyStable<T>(xs: seq<Keyed<T>>, k: nat)
    ensures WithKey(SortByKey(xs), k) == WithKey(xs, k)
  {
    if xs != [] {
      SortByKeyStable(xs[1..], k);
      InsertWithKey(xs[0], SortByKey(xs[1..]), k);
    }
  }

  /** A sorted sequence starts with all of its key-0 items and continues
      with exactly its other items. */
  lemma {:induction false} SortedSplitsUnused<T>(xs: seq<Keyed<T>>)
    requires Sorted(xs)
    ensures xs == WithKey(xs, 0) + Used(xs)
  {
    if xs != [] {
      SortedSplitsUnused(xs[1..]);
      if xs[0].key > 0 {
        NoUnused(xs[1..]);
        NoneUnused(xs);
      }
    }
  }

  lemma {:induction false} NoUnused<T>(xs: seq<Keyed<T>>)
    requires forall i :: 0 <= i < |xs| ==> xs[i].key > 0
    ensures WithKey(xs, 0) == []
  {
    if xs != [] {
      NoUnused(xs[1..]);
    }
  }

  lemma {:induction false} NoneUnused<T>(xs: seq<Keyed<T>>)
    requires forall i :: 0 <= i < |xs| ==> xs[i].key > 0
    ensures Used(xs) == xs
  {
    if xs != [] {
      NoneUnused(xs[1..]);
    }
  }

  lemma SortedSuffix<T>(a: seq<Keyed<T>>, b: seq<Keyed<T>>)
    requires Sorted(a + b)
    ensures Sorted(b)
  {
    forall i, j | 0 <= i < j < |b| ensures b[i].key <= b[j].key {
      assert b[i] == (a + b)[|a| + i] && b[j] == (a + b)[|a| + j];
    }
  }

  /** Sorting footnotes by number puts the unreferenced ones (number 0)
      first, in their original order, followed by the referenced ones in
      ascending order of number. */
  lemma SortByKeyUnusedFirst<T>(xs: seq<Keyed<T>>)
    ensures SortByKey(xs) == WithKey(xs, 0) + Used(SortByKey(xs))
    ensures Sorted(Used(SortByKey(xs)))
  {
    var s := SortByKey(xs);
    SortByKeySorted(xs);
    SortedSplitsUnused(s);
    SortByKeyStable(xs, 0);
    SortedSuffix(WithKey(s, 0), Used(s));
  }

  // ---------------------------------------------------------------------------
  // Footnote numbering

  /** A footnote as written in the page configuration. */
  datatype FootnoteEntry = FootnoteEntry(selector: string, key: string, text: string)

  /** The counter all footnotes draw their numbers from (the class attribute
      `_next_id` of notes.py). */
  class IdCounter {
    var nextId: nat

    constructor()
      ensures nextId == 0
    {
      nextId := 0;
    }

    /** `next_id`: advance the counter and hand out its new value. */
    method NextId() returns (id: nat)
      modifies this
      ensures nextId == old(nextId) + 1
      ensures id == nextId
    {
      nextId := nextId + 1;
      id := nextId;
    }
  }

  class Footnote {
    var id: nat
    const entry: FootnoteEntry

    /** A new footnote has no number yet (0) and so is not used. */
    constructor(entry: FootnoteEntry)
      ensures this.entry == entry
      ensures id == 0 && !IsUsed()
    {
      this.entry := entry;
      id := 0;
    }

    /** `is_used`: the footnote has been given a number. */
    predicate IsUsed()
      reads this
    {
      id > 0
    }

    /** The `id` property: the first read takes the next number from the
        counter; every later read returns that same number and leaves the
        counter alone. */
    method Id(counter: IdCounter) returns (r: nat)
      modifies this, counter
      ensures old(id) == 0 ==> counter.nextId == old(counter.nextId) + 1 && id == counter.nextId
      ensures old(id) != 0 ==> id == old(id) && counter.nextId == old(counter.nextId)
      ensures r == id && r > 0
    {
      if id == 0 {
        id := counter.NextId();
      }
      r := id;
    }
  }

  /** Two footnotes of one collection are different objects and, when
      referenced, carry different numbers. */
  predicate Apart(a: Keyed<Footnote>, b: Keyed<Footnote>) {
    a.item != b.item && (a.key == b.key ==> a.key == 0)
  }

  predicate Avoids(a: Keyed<Footnote>, ks: seq<Keyed<Footnote>>) {
    forall i :: 0 <= i < |ks| ==> Apart(a, ks[i])
  }

  /** The footnotes of a collection are distinct objects, and no two
      referenced ones share a number. */
  predicate DistinctFootnotes(ks: seq<Keyed<Footnote>>) {
    forall i, j :: 0 <= i < j < |ks| ==> Apart(ks[i], ks[j])
  }

  lemma DistinctCons(a: Keyed<Footnote>, ks: seq<Keyed<Footnote>>)
    ensures DistinctFootnotes([a] + ks) <==> Avoids(a, ks) && DistinctFootnotes(ks)
  {
    var r := [a] + ks;
    if Avoids(a, ks) && DistinctFootnotes(ks) {
      forall i, j | 0 <= i < j < |r| ensures Apart(r[i], r[j]) {
        assert r[j] == ks[j - 1];
        if i > 0 {
          assert r[i] == ks[i - 1];
        }
      }
    }
    if DistinctFootnotes(r) {
      forall i | 0 <= i < |ks| ensures Apart(a, ks[i]) {
        assert r[0] == a && r[i + 1] == ks[i];
        assert Apart(r[0], r[i + 1]);
      }
      forall i, j | 0 <= i < j < |ks| ensures Apart(ks[i], ks[j]) {
        assert r[i + 1] == ks[i] && r[j + 1] == ks[j];
        assert Apart(r[i + 1], r[j + 1]);
      }
    }
  }

  lemma {:induction false} AvoidsInsert(a: Keyed<Footnote>, x: Keyed<Footnote>, xs: seq<Keyed<Footnote>>)
    requires Apart(a, x) && Avoids(a, xs)
    ensures Avoids(a, Insert(x, xs))
  {
    if xs != [] && x.key > xs[0].key {
      AvoidsInsert(a, x, xs[1..]);
      assert Insert(x, xs) == [xs[0]] + Insert(x, xs[1..]);
    }
  }

  lemma {:induction false} InsertDistinct(x: Keyed<Footnote>, xs: seq<Keyed<Footnote>>)
    requires DistinctFootnotes(xs) && Avoids(x, xs)
    ensures DistinctFootnotes(Insert(x, xs))
  {
    DistinctCons(x, xs);
    if xs != [] && x.key > xs[0].key {
      DistinctCons(xs[0], xs[1..]);
      assert xs == [xs[0]] + xs[1..];
      InsertDistinct(x, xs[1..]);
      AvoidsInsert(xs[0], x, xs[1..]);
      DistinctCons(xs[0], Insert(x, xs[1..]));
    }
  }

  lemma {:induction false} AvoidsSort(a: Keyed<Footnote>, xs: seq<Keyed<Footnote>>)
    requires Avoids(a, xs)
    ensures Avoids(a, SortByKey(xs))
  {
    if xs != [] {
      AvoidsSort(a, xs[1..]);
      AvoidsInsert(a, xs[0], SortByKey(xs[1..]));
    }
  }

  /** Sorting keeps footnotes distinct and numbers unique. */
  lemma {:induction false} SortByKeyDistinct(xs: seq<Keyed<Footnote>>)
    requires DistinctFootnotes(xs)
    ensures DistinctFootnotes(SortByKey(xs))
  {
    if xs != [] {
      assert xs == [xs[0]] + xs[1..];
      DistinctCons(xs[0], xs[1..]);
      SortByKeyDistinct(xs[1..]);
      AvoidsSort(xs[0], xs[1..]);
      InsertDistinct(xs[0], SortByKey(xs[1..]));
    }
  }

  // ---------------------------------------------------------------------------
  // Listing

  /** The listed line of the footnote numbered `id`. */
  function FootnoteLine(id: nat, text: string): string {
    NatToString(id) + ". " + text
  }

  /** The number can be read back from a listed line: it is everything
      before the first `.`, and the text follows after `. `. */
  lemma FootnoteLineNumber(id: nat, text: string)
    ensures Partition(FootnoteLine(id, text), ".") == Partitioned(NatToString(id), true, " " + text)
    ensures ParseNat(Partition(FootnoteLine(id, text), ".").before) == Some(id)
  {
    var n := NatToString(id);
    assert '.' !in n by {
      assert forall i :: 0 <= i < |n| ==> IsDigit(n[i]);
    }
    assert FootnoteLine(id, text) == n + ['.'] + (" " + text);
    PartitionFirstChar(n, '.', " " + text);
    ParseNatToString(id);
  }

  /** The lines listed for `ks`: one per referenced footnote, in order. */
  function Lines(ks: seq<Keyed<Footnote>>): (r: seq<string>)
    ensures |r| == |Used(ks)|
  {
    var u := Used(ks);
    seq(|u|, i requires 0 <= i < |u| => FootnoteLine(u[i].key, u[i].item.entry.text))
  }

  lemma {:induction false} UsedAppend<T>(a: seq<Keyed<T>>, x: Keyed<T>)
    ensures Used(a + [x]) == Used(a) + (if x.key > 0 then [x] else [])
  {
    if a != [] {
      assert (a + [x])[1..] == a[1..] + [x];
      UsedAppend(a[1..], x);
    } else {
      assert a + [x] == [x];
    }
  }

  /** What a listing shows: after the sort, one line per referenced
      footnote, in strictly ascending order of number, and every referenced
      footnote appears exactly once. */
  lemma GenerateLines(xs: seq<Keyed<Footnote>>)
    requires DistinctFootnotes(xs)
    ensures var u := Used(SortByKey(xs));
            && |Lines(SortByKey(xs))| == |u|
            && multiset(u) == multiset(Used(xs))
            && (forall i, j :: 0 <= i < j < |u| ==> u[i].key < u[j].key)
  {
    UsedAscending(xs);
    UsedPermutes(xs);
  }

  /** Referenced footnotes carry distinct numbers, so after the sort their
      numbers strictly ascend. */
  lemma UsedAscending(xs: seq<Keyed<Footnote>>)
    requires DistinctFootnotes(xs)
    ensures var u := Used(SortByKey(xs));
            forall i, j :: 0 <= i < j < |u| ==> u[i].key < u[j].key
  {
    var s := SortByKey(xs);
    SortByKeyUnusedFirst(xs);
    SortByKeyDistinct(xs);
    var u := Used(s);
    DistinctSuffix(WithKey(xs, 0), u);
    forall i, j | 0 <= i < j < |u| ensures u[i].key < u[j].key {
      assert Apart(u[i], u[j]);
    }
  }

  lemma DistinctSuffix(a: seq<Keyed<Footnote>>, b: seq<Keyed<Footnote>>)
    requires DistinctFootnotes(a + b)
    ensures DistinctFootnotes(b)
  {
    forall i, j | 0 <= i < j < |b| ensures Apart(b[i], b[j]) {
      assert b[i] == (a + b)[|a| + i] && b[j] == (a + b)[|a| + j];
    }
  }

  /** The referenced footnotes are the same before and after the sort. */
  lemma UsedPermutes<T>(xs: seq<Keyed<T>>)
    ensures multiset(Used(SortByKey(xs))) == multiset(Used(xs))
  {
    var s := SortByKey(xs);
    SortByKeyPermutes(xs);
    SortByKeyStable(xs, 0);
    SplitMultiset(xs);
    SplitMultiset(s);
    var z, u, u' := multiset(WithKey(xs, 0)), multiset(Used(xs)), multiset(Used(s));
    assert multiset(xs) == z + u;
    assert multiset(s) == z + u';
    MultisetCancel(z, u, u');
  }

  lemma MultisetCancel<T>(z: multiset<T>, u: multiset<T>, u': multiset<T>)
    requires z + u == z + u'
    ensures u == u'
  {
    forall y ensures u[y] == u'[y] {
      assert (z + u)[y] == (z + u')[y];
    }
  }

  lemma {:induction false} SplitMultiset<T>(xs: seq<Keyed<T>>)
    ensures multiset(xs) == multiset(WithKey(xs, 0)) + multiset(Used(xs))
  {
    if xs != [] {
      SplitMultiset(xs[1..]);
      assert xs == [xs[0]] + xs[1..];
    }
  }

  /** Appending one item adds its line, if it is referenced. */
  lemma LinesAppend(ks: seq<Keyed<Footnote>>, x: Keyed<Footnote>)
    ensures Lines(ks + [x]) ==
            Lines(ks) + (if x.key > 0 then [FootnoteLine(x.key, x.item.entry.text)] else [])
  {
    UsedAppend(ks, x);
    var u := Used(ks);
    var u' := Used(ks + [x]);
    assert forall i :: 0 <= i < |u| ==> u'[i] == u[i];
  }

  function Items<T>(ks: seq<Keyed<T>>): (r: seq<T>)
    ensures |r| == |ks| && forall i :: 0 <= i < |ks| ==> r[i] == ks[i].item
  {
    seq(|ks|, i requires 0 <= i < |ks| => ks[i].item)
  }

  // ---------------------------------------------------------------------------
  // A collection of footnotes

  /** `Footnotes`: the footnotes of a page, numbered from a counter that may
      be shared with other collections. */
  class Footnotes {
    var footnotes: seq<Footnote>
    const counter: IdCounter

    /** Each footnote with its current number. */
    function KeyedFootnotes(): (r: seq<Keyed<Footnote>>)
      reads this, footnotes
      ensures |r| == |footnotes|
      ensures forall i :: 0 <= i < |footnotes| ==> r[i] == Keyed(footnotes[i].id, footnotes[i])
    {
      seq(|footnotes|, i requires 0 <= i < |footnotes| reads this, footnotes => Keyed(footnotes[i].id, footnotes[i]))
    }

    /** The configuration entries of the footnotes, in list order. */
    function Entries(): (r: seq<FootnoteEntry>)
      reads this
      ensures |r| == |footnotes|
      ensures forall i :: 0 <= i < |footnotes| ==> r[i] == footnotes[i].entry
    {
      seq(|footnotes|, i requires 0 <= i < |footnotes| reads this => footnotes[i].entry)
    }

    /** The footnotes are distinct objects, no two referenced ones share a
        number, and no number is ahead of the counter. */
    ghost predicate Valid()
      reads this, footnotes, counter
    {
      && DistinctFootnotes(KeyedFootnotes())
      && forall i :: 0 <= i < |footnotes| ==> footnotes[i].id <= counter.nextId
    }

    /** A collection, optionally filled with the given entries. */
    constructor(counter: IdCounter, entries: Option<seq<FootnoteEntry>>)
      ensures this.counter == counter
      ensures Entries() == if entries.Some? then entries.value else []
      ensures forall i :: 0 <= i < |footnotes| ==> fresh(footnotes[i]) && footnotes[i].id == 0
      ensures Valid()
    {
      this.counter := counter;
      footnotes := [];
      new;
      if entries.Some? {
        Append(entries.value);
      }
    }

    /** `append`: one new, unreferenced footnote per entry, added at the end
        in entry order. */
    method Append(entries: seq<FootnoteEntry>)
      requires Valid()
      modifies this
      ensures Entries() == old(Entries()) + entries
      ensures |footnotes| == old(|footnotes|) + |entries|
      ensures footnotes[..old(|footnotes|)] == old(footnotes)
      ensures forall i :: old(|footnotes|) <= i < |footnotes| ==> fresh(footnotes[i]) && footnotes[i].id == 0
      ensures Valid()
    {
      ghost var n := |footnotes|;
      for i := 0 to |entries|
        invariant |footnotes| == n + i
        invariant footnotes[..n] == old(footnotes)
        invariant Entries() == old(Entries()) + entries[..i]
        invariant forall k :: n <= k < |footnotes| ==> fresh(footnotes[k]) && footnotes[k].id == 0
        invariant Valid()
      {
        var footnote := new Footnote(entries[i]);
        ghost var before := KeyedFootnotes();
        footnotes := footnotes + [footnote];
        assert KeyedFootnotes() == before + [Keyed(0, footnote)];
        assert entries[..i + 1] == entries[..i] + [entries[i]];
      }
      assert entries[..|entries|] == entries;
    }

    /** Reading the number of the `i`th footnote: the first read takes the
        counter's next value, later reads give the same number, and no other
        footnote's number changes. */
    method ReadId(i: nat) returns (id: nat)
      requires Valid() && i < |footnotes|
      modifies footnotes[i], counter
      ensures Valid()
      ensures id == footnotes[i].id
      ensures old(footnotes[i].id) == 0 ==> id == old(counter.nextId) + 1 && counter.nextId == id
      ensures old(footnotes[i].id) != 0 ==> id == old(footnotes[i].id) && counter.nextId == old(counter.nextId)
      ensures forall k :: 0 <= k < |footnotes| && k != i ==> footnotes[k].id == old(footnotes[k].id)
    {
      ghost var before := KeyedFootnotes();
      assert forall k :: 0 <= k < |footnotes| && k != i ==> Apart(before[i], before[k]);
      id := footnotes[i].Id(counter);
    }

    /** `sort`: the footnotes stably sorted by number. */
    method Sort()
      requires Valid()
      modifies this
      ensures KeyedFootnotes() == SortByKey(old(KeyedFootnotes()))
      ensures Valid()
    {
      ghost var ks := KeyedFootnotes();
      var sorted := SortByKey(KeyedFootnotes());
      SortByKeyPermutes(ks);
      SortByKeyDistinct(ks);
      SortByKeySorted(ks);
      footnotes := Items(sorted);
      forall i | 0 <= i < |sorted| ensures sorted[i] == Keyed(footnotes[i].id, footnotes[i]) && footnotes[i].id <= counter.nextId {
        assert sorted[i] in multiset(ks);
        var k :| 0 <= k < |ks| && ks[k] == sorted[i];
      }
    }

    /** The selection part of `generate`: sort, then one line
        `<number>. <text>` per referenced footnote, in sorted order. */
    method Generate() returns (lines: seq<string>)
      requires Valid()
      modifies this
      ensures KeyedFootnotes() == SortByKey(old(KeyedFootnotes()))
      ensures lines == Lines(KeyedFootnotes())
      ensures Valid()
    {
      Sort();
      lines := UsedLines();
    }

    /** The loop of `generate`: a line for each referenced footnote, in list order. */
    method UsedLines() returns (lines: seq<string>)
      ensures lines == Lines(KeyedFootnotes())
    {
      ghost var ks := KeyedFootnotes();
      lines := [];
      for i := 0 to |footnotes|
        invariant lines == Lines(ks[..i])
      {
        var footnote := footnotes[i];
        assert ks[..i + 1] == ks[..i] + [ks[i]];
        LinesAppend(ks[..i], ks[i]);
        if footnote.IsUsed() {
          // the `id` property of a referenced footnote only returns its number
          lines := lines + [FootnoteLine(footnote.id, footnote.entry.text)];
        }
      }
      assert ks[..|footnotes|] == ks;
    }
  }
}
