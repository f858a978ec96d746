/**
 The audit timeline: pages of records merged by identity, the last-read value winning, and sorted by time, id and kind.
 `compare` stands for the comparison of texts in the locale's collation, which may treat different texts alike.
 */
module AuditTimeline {
  datatype Kind = Event | Quote | Commitment | Recap | Brief | Recovery | Escalation | Notification

  datatype Item = Item(id: string, timestamp: string, kind: Kind, content: nat)

  /** The eight lists of a page; the kind of an item is that of its list. */
  datatype Page = Page(events: seq<Item>, quotes: seq<Item>, commitments: seq<Item>, recaps: seq<Item>,
                       briefs: seq<Item>, recoveries: seq<Item>, escalations: seq<Item>, notifications: seq<Item>)

  function Items(page: Page): seq<Item> {
    page.events + page.quotes + page.commitments + page.recaps + page.briefs + page.recoveries + page.escalations
    + page.notifications
  }

  /** All the items of the pages, in the order in which they are read. */
  function Read(pages: seq<Page>): seq<Item> {
    if pages == [] then [] else Read(pages[..|pages| - 1]) + Items(pages[|pages| - 1])
  }

  // ---------- Identity ----------

  datatype Identity = Identity(kind: Kind, id: string)

  function IdentityOf(item: Item): Identity {
    Identity(item.kind, item.id)
  }

  function Name(kind: Kind): string {
    match kind
    case Event => "event"
    case Quote => "quote"
    case Commitment => "commitment"
    case Recap => "recap"
    case Brief => "brief"
    case Recovery => "recovery"
    case Escalation => "escalation"
    case Notification => "notification"
  }

  /** The key of the merge map. */
  function Key(identity: Identity): string {
    Name(identity.kind) + ":" + identity.id
  }

  lemma NameHasNoColon(kind: Kind)
    ensures ':' !in Name(kind)
  {}

  lemma NamesDiffer(a: Kind, b: Kind)
    requires Name(a) == Name(b)
    ensures a == b
  {}

  lemma FirstColon(a: string, x: string, b: string, y: string)
    requires ':' !in a && ':' !in b && a + ":" + x == b + ":" + y
    ensures a == b && x == y
  {
    var s, t := a + ":" + x, b + ":" + y;
    forall i | 0 <= i < |a|
      ensures s[i] != ':'
    {
      assert s[i] == a[i] && a[i] in a;
    }
    forall i | 0 <= i < |b|
      ensures t[i] != ':'
    {
      assert t[i] == b[i] && b[i] in b;
    }
    assert s[|a|] == ':' && t[|b|] == ':';
    assert a == s[..|a|] && b == t[..|b|];
    assert x == s[|a| + 1..] && y == t[|b| + 1..];
  }

  /** Different identities have different keys, whatever the ids contain. */
  lemma KeyIsInjective(i: Identity, j: Identity)
    requires Key(i) == Key(j)
    ensures i == j
  {
    NameHasNoColon(i.kind);
    NameHasNoColon(j.kind);
    FirstColon(Name(i.kind), i.id, Name(j.kind), j.id);
    NamesDiffer(i.kind, j.kind);
  }

  // ---------- The merge ----------

  /** The last of the first `n` items of each identity. */
  function MergedUpTo(items: seq<Item>, n: nat): map<Identity, Item>
    requires n <= |items|
  {
    if n == 0 then map[] else MergedUpTo(items, n - 1)[IdentityOf(items[n - 1]) := items[n - 1]]
  }

  function Merged(items: seq<Item>): map<Identity, Item> {
    MergedUpTo(items, |items|)
  }

  lemma {:induction false} MergedExtends(items: seq<Item>, longer: seq<Item>, n: nat)
    requires n <= |items| <= |longer| && forall i :: 0 <= i < |items| ==> longer[i] == items[i]
    ensures MergedUpTo(longer, n) == MergedUpTo(items, n)
  {
    if n > 0 {
      MergedExtends(items, longer, n - 1);
    }
  }

  /** The item at `i` has the identity and is the last of the first `n` that has. */
  ghost predicate LastRead(items: seq<Item>, n: nat, identity: Identity, i: int)
    requires n <= |items|
  {
    && 0 <= i < n && IdentityOf(items[i]) == identity
    && forall j :: i < j < n ==> IdentityOf(items[j]) != identity
  }

  /** What the merge map holds is, for exactly the identities that occur, the item read last. */
  lemma {:induction false} MergedIsLastRead(items: seq<Item>, n: nat, identity: Identity) returns (i: int)
    requires n <= |items|
    ensures identity in MergedUpTo(items, n) ==>
      LastRead(items, n, identity, i) && items[i] == MergedUpTo(items, n)[identity]
    ensures identity !in MergedUpTo(items, n) ==> forall k :: 0 <= k < n ==> IdentityOf(items[k]) != identity
  {
    i := 0;
    if n > 0 {
      if IdentityOf(items[n - 1]) == identity {
        i := n - 1;
      } else {
        i := MergedIsLastRead(items, n - 1, identity);
      }
    }
  }

  // ---------- The order ----------

  /** Negative, zero or positive as the first text comes before, beside or after the second. */
  type Comparator = (string, string) -> int

  /** All that is assumed of the comparison: swapping the texts swaps the answer, and it is transitive. */
  ghost predicate Collation(compare: Comparator) {
    && (forall s, t :: compare(s, t) < 0 <==> compare(t, s) > 0)
    && (forall s, t, u :: compare(s, t) <= 0 && compare(t, u) <= 0 ==> compare(s, u) <= 0)
  }

  ghost predicate TellsApart(compare: Comparator) {
    forall s, t :: compare(s, t) == 0 ==> s == t
  }

  /** The first of time, id and kind on which the texts differ decides. */
  function CompareItems(compare: Comparator, a: Item, b: Item): int {
    if compare(a.timestamp, b.timestamp) != 0 then compare(a.timestamp, b.timestamp)
    else if compare(a.id, b.id) != 0 then compare(a.id, b.id)
    else compare(Name(a.kind), Name(b.kind))
  }

  predicate Before(compare: Comparator, a: Item, b: Item) {
    CompareItems(compare, a, b) < 0
  }

  lemma BeforeIsStrictOrder(compare: Comparator, a: Item, b: Item, c: Item)
    requires Collation(compare)
    ensures Before(compare, a, b) ==> !Before(compare, b, a)
    ensures !Before(compare, b, a) && !Before(compare, c, b) ==> !Before(compare, c, a)
    ensures Before(compare, a, b) && Before(compare, b, c) ==> Before(compare, a, c)
    ensures TellsApart(compare) && !Before(compare, a, b) && !Before(compare, b, a) ==> IdentityOf(a) == IdentityOf(b)
  {}

  /** In order of time; at one time in order of id; and for one id in order of the names of the kinds. */
  ghost predicate Chronological(compare: Comparator, timeline: seq<Item>) {
    forall i, j :: 0 <= i < j < |timeline| ==>
      && compare(timeline[i].timestamp, timeline[j].timestamp) <= 0
      && (compare(timeline[i].timestamp, timeline[j].timestamp) == 0 ==>
            && compare(timeline[i].id, timeline[j].id) <= 0
            && (compare(timeline[i].id, timeline[j].id) == 0 ==>
                  compare(Name(timeline[i].kind), Name(timeline[j].kind)) <= 0))
  }

  lemma NotBefore(compare: Comparator, a: Item, b: Item)
    requires Collation(compare) && !Before(compare, b, a)
    ensures compare(a.timestamp, b.timestamp) <= 0
    ensures compare(a.timestamp, b.timestamp) == 0 ==> compare(a.id, b.id) <= 0
    ensures compare(a.timestamp, b.timestamp) == 0 && compare(a.id, b.id) == 0 ==>
      compare(Name(a.kind), Name(b.kind)) <= 0
  {}

  /** Sorting by the comparison of items is putting them in order of time, id and kind. */
  lemma SortedIsChronological(compare: Comparator, timeline: seq<Item>)
    requires Collation(compare) && Sorted(compare, timeline)
    ensures Chronological(compare, timeline)
  {
    forall i, j | 0 <= i < j < |timeline|
      ensures compare(timeline[i].timestamp, timeline[j].timestamp) <= 0
      ensures compare(timeline[i].timestamp, timeline[j].timestamp) == 0 ==>
        && compare(timeline[i].id, timeline[j].id) <= 0
        && (compare(timeline[i].id, timeline[j].id) == 0 ==>
              compare(Name(timeline[i].kind), Name(timeline[j].kind)) <= 0)
    {
      NotBefore(compare, timeline[i], timeline[j]);
    }
  }

  /** The order of the code units, one of the comparisons the results are about. */
  function CodeUnits(s: string, t: string): int {
    if t == [] then |s|
    else if s == [] then -1
    else if s[0] != t[0] then s[0] as int - t[0] as int
    else CodeUnits(s[1..], t[1..])
  }

  lemma {:induction false} CodeUnitsAt(s: string, t: string, u: string)
    ensures CodeUnits(s, t) < 0 <==> CodeUnits(t, s) > 0
    ensures CodeUnits(s, t) <= 0 && CodeUnits(t, u) <= 0 ==> CodeUnits(s, u) <= 0
    ensures CodeUnits(s, t) == 0 ==> s == t
  {
    if s != [] && t != [] {
      CodeUnitsAt(s[1..], t[1..], if u == [] then u else u[1..]);
      assert s == [s[0]] + s[1..] && t == [t[0]] + t[1..];
    }
  }

  lemma CodeUnitsCollate()
    ensures Collation(CodeUnits) && TellsApart(CodeUnits)
  {
    forall s, t
      ensures CodeUnits(s, t) < 0 <==> CodeUnits(t, s) > 0
      ensures CodeUnits(s, t) == 0 ==> s == t
    {
      CodeUnitsAt(s, t, s);
    }
    forall s, t, u | CodeUnits(s, t) <= 0 && CodeUnits(t, u) <= 0
      ensures CodeUnits(s, u) <= 0
    {
      CodeUnitsAt(s, t, u);
    }
  }

  ghost predicate Ordered(compare: Comparator, items: seq<Item>) {
    forall i, j :: 0 <= i < j < |items| ==> Before(compare, items[i], items[j])
  }

  /** No item comes before an earlier one. */
  ghost predicate Sorted(compare: Comparator, items: seq<Item>) {
    forall i, j :: 0 <= i < j < |items| ==> !Before(compare, items[j], items[i])
  }

  ghost predicate DistinctIdentities(items: seq<Item>) {
    forall i, j :: 0 <= i < j < |items| ==> IdentityOf(items[i]) != IdentityOf(items[j])
  }

  /** The item is the last-read one of its identity. */
  predicate Kept(items: seq<Item>, x: Item) {
    IdentityOf(x) in Merged(items) && Merged(items)[IdentityOf(x)] == x
  }

  /** A timeline of the items that were read: sorted, and holding exactly the last-read item of each identity, once. */
  ghost predicate IsTimeline(compare: Comparator, items: seq<Item>, timeline: seq<Item>) {
    && Sorted(compare, timeline) && DistinctIdentities(timeline)
    && (forall x :: x in timeline <==> Kept(items, x))
  }

  /** The collation puts any two of the kept items in some order. */
  ghost predicate NoTies(compare: Comparator, items: seq<Item>) {
    forall x, y :: Kept(items, x) && Kept(items, y) && IdentityOf(x) != IdentityOf(y) ==>
      Before(compare, x, y) || Before(compare, y, x)
  }

  /** A timeline is strictly increasing exactly when the collation ties no two of its items, which it never does if it
      tells all texts apart. */
  lemma StrictExactlyWithoutTies(compare: Comparator, items: seq<Item>, timeline: seq<Item>)
    requires Collation(compare) && IsTimeline(compare, items, timeline)
    ensures Ordered(compare, timeline) <==> NoTies(compare, items)
    ensures TellsApart(compare) ==> NoTies(compare, items)
  {
    if NoTies(compare, items) {
      forall i, j | 0 <= i < j < |timeline|
        ensures Before(compare, timeline[i], timeline[j])
      {
        assert timeline[i] in timeline && timeline[j] in timeline;
        assert Kept(items, timeline[i]) && Kept(items, timeline[j]);
      }
    }
    if Ordered(compare, timeline) {
      forall x, y | Kept(items, x) && Kept(items, y) && IdentityOf(x) != IdentityOf(y)
        ensures Before(compare, x, y) || Before(compare, y, x)
      {
        assert x in timeline && y in timeline;
      }
    }
    if TellsApart(compare) {
      forall x, y | Kept(items, x) && Kept(items, y) && IdentityOf(x) != IdentityOf(y)
        ensures Before(compare, x, y) || Before(compare, y, x)
      {
        BeforeIsStrictOrder(compare, x, y, x);
      }
    }
  }

  /** There is only one: an ordered list is determined by its elements. */
  lemma {:induction false} OrderedIsUnique(compare: Comparator, a: seq<Item>, b: seq<Item>)
    requires Collation(compare) && Ordered(compare, a) && Ordered(compare, b)
    requires forall x :: x in a <==> x in b
    ensures a == b
  {
    assert b != [] ==> b[0] in b;
    assert a != [] ==> a[0] in a;
    if a != [] {
      SameHead(compare, a, b);
      forall x
        ensures x in a[1..] <==> x in b[1..]
      {
        TailMembers(compare, a, x);
        TailMembers(compare, b, x);
      }
      OrderedIsUnique(compare, a[1..], b[1..]);
      assert a == [a[0]] + a[1..] && b == [b[0]] + b[1..];
    }
  }

  lemma TailMembers(compare: Comparator, a: seq<Item>, x: Item)
    requires Collation(compare) && Ordered(compare, a) && a != []
    ensures x in a[1..] <==> x in a && x != a[0]
  {}

  lemma SameHead(compare: Comparator, a: seq<Item>, b: seq<Item>)
    requires Collation(compare) && Ordered(compare, a) && Ordered(compare, b) && a != [] && b != []
    requires forall x :: x in a <==> x in b
    ensures a[0] == b[0]
  {
    assert a[0] in b && b[0] in a;
    var i :| 0 <= i < |b| && b[i] == a[0];
    var j :| 0 <= j < |a| && a[j] == b[0];
    if i > 0 && j > 0 {
      BeforeIsStrictOrder(compare, a[0], b[0], a[0]);
    }
  }

  // ---------- The results ----------

  /** Items with one identity are the same item, in whichever page they are read. */
  ghost predicate Agree(items: seq<Item>) {
    forall i, j :: 0 <= i < |items| && 0 <= j < |items| && IdentityOf(items[i]) == IdentityOf(items[j]) ==>
      items[i] == items[j]
  }

  lemma AgreedMerge(items: seq<Item>, x: Item)
    requires Agree(items)
    ensures x in items <==> Kept(items, x)
  {
    var i := MergedIsLastRead(items, |items|, IdentityOf(x));
  }

  lemma SameKept(items: seq<Item>, others: seq<Item>, x: Item)
    requires Agree(items) && forall y :: y in items <==> y in others
    ensures Kept(items, x) <==> Kept(others, x)
  {
    assert Agree(others) by {
      forall i, j | 0 <= i < |others| && 0 <= j < |others| && IdentityOf(others[i]) == IdentityOf(others[j])
        ensures others[i] == others[j]
      {
        assert others[i] in items && others[j] in items;
      }
    }
    AgreedMerge(items, x);
    AgreedMerge(others, x);
  }

  /** Reordering or repeating items that agree does not change the timeline, unless the collation ties two of them. */
  lemma ItemOrderDoesNotMatter(compare: Comparator, items: seq<Item>, timeline: seq<Item>, others: seq<Item>,
                               other: seq<Item>)
    requires Collation(compare) && Agree(items) && NoTies(compare, items) && forall x :: x in items <==> x in others
    requires IsTimeline(compare, items, timeline) && IsTimeline(compare, others, other)
    ensures timeline == other
  {
    forall x
      ensures Kept(items, x) <==> Kept(others, x)
    {
      SameKept(items, others, x);
    }
    assert IsTimeline(compare, items, other);
    StrictExactlyWithoutTies(compare, items, timeline);
    StrictExactlyWithoutTies(compare, items, other);
    OrderedIsUnique(compare, timeline, other);
  }

  ghost predicate OnPage(pages: seq<Page>, x: Item) {
    exists page :: page in pages && x in Items(page)
  }

  /** Pages are read one after the other. */
  lemma {:induction false} ReadInOrder(first: seq<Page>, second: seq<Page>)
    ensures Read(first + second) == Read(first) + Read(second)
  {
    if second == [] {
      assert first + second == first;
    } else {
      var rest, last := second[..|second| - 1], second[|second| - 1];
      ReadInOrder(first, rest);
      ReadOneMore(rest, last, second);
      ReadOneMore(first + rest, last, first + second);
    }
  }

  lemma ReadOneMore(pages: seq<Page>, page: Page, longer: seq<Page>)
    requires longer == pages + [page]
    ensures Read(longer) == Read(pages) + Items(page)
  {
    assert longer[..|pages|] == pages;
  }

  /** A page holds what its eight lists hold. */
  lemma ItemsExactly(page: Page, x: Item)
    ensures x in Items(page) <==>
            x in page.events || x in page.quotes || x in page.commitments || x in page.recaps || x in page.briefs
            || x in page.recoveries || x in page.escalations || x in page.notifications
  {}

  /** What is read is what some page holds. */
  lemma {:induction false} ReadMembers(pages: seq<Page>, x: Item)
    ensures x in Read(pages) <==> OnPage(pages, x)
  {
    if pages != [] {
      var earlier, last := pages[..|pages| - 1], pages[|pages| - 1];
      ReadMembers(earlier, x);
      assert pages == earlier + [last];
    }
  }

  lemma SameRead(pages: seq<Page>, others: seq<Page>)
    requires forall page :: page in pages <==> page in others
    ensures forall x :: x in Read(pages) <==> x in Read(others)
  {
    forall x
      ensures x in Read(pages) <==> x in Read(others)
    {
      ReadMembers(pages, x);
      ReadMembers(others, x);
    }
  }

  /** Reordering or repeating pages whose shared items agree does not change the timeline, unless the collation ties two
      items. */
  lemma PageOrderDoesNotMatter(compare: Comparator, pages: seq<Page>, timeline: seq<Item>, others: seq<Page>,
                               other: seq<Item>)
    requires Collation(compare) && Agree(Read(pages)) && NoTies(compare, Read(pages))
    requires forall page :: page in pages <==> page in others
    requires IsTimeline(compare, Read(pages), timeline) && IsTimeline(compare, Read(others), other)
    ensures timeline == other
  {
    SameRead(pages, others);
    ItemOrderDoesNotMatter(compare, Read(pages), timeline, Read(others), other);
  }

  /** Each identity that was read occurs exactly once. */
  lemma OncePerIdentity(compare: Comparator, items: seq<Item>, timeline: seq<Item>, k: nat) returns (n: nat)
    requires IsTimeline(compare, items, timeline) && k < |items|
    ensures n < |timeline| && IdentityOf(timeline[n]) == IdentityOf(items[k])
    ensures forall i :: 0 <= i < |timeline| && IdentityOf(timeline[i]) == IdentityOf(items[k]) ==> i == n
  {
    var i := MergedIsLastRead(items, |items|, IdentityOf(items[k]));
    assert Kept(items, items[i]) && items[i] in timeline;
    n :| 0 <= n < |timeline| && timeline[n] == items[i];
  }

  // ---------- Sorting ----------

  function Insert(compare: Comparator, sorted: seq<Item>, x: Item): seq<Item> {
    if sorted == [] || Before(compare, x, sorted[0]) then [x] + sorted
    else [sorted[0]] + Insert(compare, sorted[1..], x)
  }

  /** The built-in sort. */
  function Sort(compare: Comparator, items: seq<Item>): seq<Item> {
    if items == [] then [] else Insert(compare, Sort(compare, items[..|items| - 1]), items[|items| - 1])
  }

  lemma {:induction false} InsertMembers(compare: Comparator, sorted: seq<Item>, x: Item, y: Item)
    ensures y in Insert(compare, sorted, x) <==> y in sorted || y == x
  {
    if !(sorted == [] || Before(compare, x, sorted[0])) {
      InsertMembers(compare, sorted[1..], x, y);
      assert sorted == [sorted[0]] + sorted[1..];
    }
  }

  lemma PrependSorted(compare: Comparator, x: Item, rest: seq<Item>)
    requires Sorted(compare, rest) && DistinctIdentities(rest)
    requires forall y :: y in rest ==> !Before(compare, y, x) && IdentityOf(y) != IdentityOf(x)
    ensures Sorted(compare, [x] + rest) && DistinctIdentities([x] + rest)
  {
    var all := [x] + rest;
    forall i, j | 0 <= i < j < |all|
      ensures !Before(compare, all[j], all[i]) && IdentityOf(all[i]) != IdentityOf(all[j])
    {
      assert all[j] == rest[j - 1] && rest[j - 1] in rest;
    }
  }

  lemma {:induction false} InsertSorted(compare: Comparator, sorted: seq<Item>, x: Item)
    requires Collation(compare) && Sorted(compare, sorted) && DistinctIdentities(sorted)
    requires forall y :: y in sorted ==> IdentityOf(y) != IdentityOf(x)
    ensures Sorted(compare, Insert(compare, sorted, x)) && DistinctIdentities(Insert(compare, sorted, x))
  {
    if sorted == [] {
    } else if Before(compare, x, sorted[0]) {
      forall y | y in sorted
        ensures !Before(compare, y, x)
      {
        BeforeIsStrictOrder(compare, y, x, sorted[0]);
        BeforeIsStrictOrder(compare, sorted[0], sorted[0], sorted[0]);
      }
      PrependSorted(compare, x, sorted);
    } else {
      var rest := sorted[1..];
      InsertSorted(compare, rest, x);
      forall y | y in Insert(compare, rest, x)
        ensures !Before(compare, y, sorted[0]) && IdentityOf(y) != IdentityOf(sorted[0])
      {
        InsertMembers(compare, rest, x, y);
        assert sorted[0] in sorted;
      }
      PrependSorted(compare, sorted[0], Insert(compare, rest, x));
    }
  }

  lemma {:induction false} SortMembers(compare: Comparator, items: seq<Item>, x: Item)
    ensures x in Sort(compare, items) <==> x in items
  {
    if items != [] {
      var last := |items| - 1;
      SortMembers(compare, items[..last], x);
      InsertMembers(compare, Sort(compare, items[..last]), items[last], x);
      assert items == items[..last] + [items[last]];
    }
  }

  lemma {:induction false} SortSorts(compare: Comparator, items: seq<Item>)
    requires Collation(compare) && DistinctIdentities(items)
    ensures Sorted(compare, Sort(compare, items)) && DistinctIdentities(Sort(compare, items))
  {
    if items != [] {
      var last := |items| - 1;
      SortSorts(compare, items[..last]);
      forall y | y in Sort(compare, items[..last])
        ensures IdentityOf(y) != IdentityOf(items[last])
      {
        SortMembers(compare, items[..last], y);
      }
      InsertSorted(compare, Sort(compare, items[..last]), items[last]);
    }
  }

  // ---------- The timeline by the fields of its items ----------

  /** The item was read, and none of its kind with its id was read after it. */
  ghost predicate ReadLast(items: seq<Item>, x: Item) {
    exists k :: 0 <= k < |items| && LastAt(items, k, x)
  }

  ghost predicate LastAt(items: seq<Item>, k: int, x: Item)
    requires 0 <= k < |items|
  {
    items[k] == x && forall j :: k < j < |items| ==> items[j].kind != x.kind || items[j].id != x.id
  }

  lemma KeptExactly(items: seq<Item>, x: Item)
    ensures Kept(items, x) <==> ReadLast(items, x)
  {
    var i := MergedIsLastRead(items, |items|, IdentityOf(x));
    if Kept(items, x) {
      assert LastAt(items, i, x);
    }
    if k :| 0 <= k < |items| && LastAt(items, k, x) {
      assert IdentityOf(items[k]) == IdentityOf(x);
    }
  }

  /** No two items have the same kind and id. */
  ghost predicate OncePerKindAndId(timeline: seq<Item>) {
    forall i, j :: 0 <= i < j < |timeline| ==>
      timeline[i].kind != timeline[j].kind || timeline[i].id != timeline[j].id
  }

  lemma TimelineByFields(compare: Comparator, items: seq<Item>, timeline: seq<Item>)
    requires IsTimeline(compare, items, timeline)
    ensures OncePerKindAndId(timeline) && forall x :: x in timeline <==> ReadLast(items, x)
  {
    forall x
      ensures x in timeline <==> ReadLast(items, x)
    {
      KeptExactly(items, x);
    }
    forall i, j | 0 <= i < j < |timeline|
      ensures timeline[i].kind != timeline[j].kind || timeline[i].id != timeline[j].id
    {
      assert IdentityOf(timeline[i]) != IdentityOf(timeline[j]);
    }
  }

  // ---------- The program ----------

  /** The map that holds `merged`: its keys in the order of first insertion, the value of a key the last one set. */
  ghost predicate Holds(keys: seq<string>, byIdentity: map<string, Item>, merged: map<Identity, Item>) {
    && (forall k :: k in keys <==> k in byIdentity)
    && (forall i, j :: 0 <= i < j < |keys| ==> keys[i] != keys[j])
    && (forall k :: k in byIdentity ==> k == Key(IdentityOf(byIdentity[k])))
    && (forall i :: i in merged <==> Key(i) in byIdentity)
    && (forall i :: i in merged ==> byIdentity[Key(i)] == merged[i])
  }

  lemma SetKeepsHolding(keys: seq<string>, byIdentity: map<string, Item>, merged: map<Identity, Item>, item: Item,
                        key: string, identity: Identity)
    requires Holds(keys, byIdentity, merged) && identity == IdentityOf(item) && key == Key(identity)
    ensures Holds(if key in byIdentity then keys else keys + [key], byIdentity[key := item], merged[identity := item])
  {
    forall i: Identity | Key(i) == key
      ensures i == identity
    {
      KeyIsInjective(i, identity);
    }
  }

  lemma MergedAppend(read: seq<Item>, item: Item, longer: seq<Item>)
    requires longer == read + [item]
    ensures Merged(longer) == Merged(read)[IdentityOf(item) := item]
  {
    MergedExtends(read, longer, |read|);
  }

  method AuditItemsFromPages(pages: seq<Page>, compare: Comparator) returns (timeline: seq<Item>)
    requires Collation(compare)
    ensures IsTimeline(compare, Read(pages), timeline) && Chronological(compare, timeline)
    ensures OncePerKindAndId(timeline) && forall x :: x in timeline <==> ReadLast(Read(pages), x)
  {
    var keys: seq<string>, byIdentity: map<string, Item> := [], map[];
    for p := 0 to |pages|
      invariant Holds(keys, byIdentity, Merged(Read(pages[..p])))
    {
      assert pages[..p + 1][..p] == pages[..p];
      keys, byIdentity := SetAll(keys, byIdentity, Items(pages[p]), Read(pages[..p]));
    }
    assert pages[..|pages|] == pages;
    timeline := Sort(compare, Values(keys, byIdentity));
    ValuesSorted(compare, keys, byIdentity, Read(pages), timeline);
    SortedIsChronological(compare, timeline);
    TimelineByFields(compare, Read(pages), timeline);
  }

  /** Enters the items of one page. */
  method SetAll(keys0: seq<string>, byIdentity0: map<string, Item>, items: seq<Item>, ghost read: seq<Item>)
    returns (keys: seq<string>, byIdentity: map<string, Item>)
    requires Holds(keys0, byIdentity0, Merged(read))
    ensures Holds(keys, byIdentity, Merged(read + items))
  {
    keys, byIdentity := keys0, byIdentity0;
    assert read + items[..0] == read;
    for i := 0 to |items|
      invariant Holds(keys, byIdentity, Merged(read + items[..i]))
    {
      var key := Key(IdentityOf(items[i]));
      SetKeepsHolding(keys, byIdentity, Merged(read + items[..i]), items[i], key, IdentityOf(items[i]));
      Extend(read, items, i);
      if key !in byIdentity {
        keys := keys + [key];
      }
      byIdentity := byIdentity[key := items[i]];
    }
    assert read + items[..|items|] == read + items;
  }

  lemma Extend(read: seq<Item>, items: seq<Item>, i: nat)
    requires i < |items|
    ensures Merged(read + items[..i + 1]) == Merged(read + items[..i])[IdentityOf(items[i]) := items[i]]
  {
    assert read + items[..i + 1] == read + items[..i] + [items[i]];
    MergedAppend(read + items[..i], items[i], read + items[..i + 1]);
  }

  function Values(keys: seq<string>, byIdentity: map<string, Item>): seq<Item>
    requires forall k :: k in keys ==> k in byIdentity
  {
    seq(|keys|, i requires 0 <= i < |keys| => byIdentity[keys[i]])
  }

  lemma ValuesSorted(compare: Comparator, keys: seq<string>, byIdentity: map<string, Item>, read: seq<Item>,
                     timeline: seq<Item>)
    requires Collation(compare)
    requires Holds(keys, byIdentity, Merged(read)) && timeline == Sort(compare, Values(keys, byIdentity))
    ensures IsTimeline(compare, read, timeline)
  {
    var values := Values(keys, byIdentity);
    SortSorts(compare, values);
    forall x
      ensures x in timeline <==> Kept(read, x)
    {
      SortMembers(compare, values, x);
      ValueMembers(keys, byIdentity, Merged(read), x);
    }
  }

  lemma ValueMembers(keys: seq<string>, byIdentity: map<string, Item>, merged: map<Identity, Item>, x: Item)
    requires Holds(keys, byIdentity, merged)
    ensures x in Values(keys, byIdentity) <==> IdentityOf(x) in merged && merged[IdentityOf(x)] == x
  {
    var key := Key(IdentityOf(x));
    if key in byIdentity && byIdentity[key] == x {
      var i :| 0 <= i < |keys| && keys[i] == key;
      assert Values(keys, byIdentity)[i] == x;
    }
  }
}
