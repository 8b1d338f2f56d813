/** The crawler's two linked lists: the pages, pushed at the front, and the pending entries, appended at the end. */
module CrawlerLists {
  import opened Crawler
  import opened Wrappers

  /** A page in memory; `no` is its position in the history of pages. */
  class PageNode {
    ghost const no: nat
    var page: Page
    var next: PageNode?

    constructor (ghost no: nat, page: Page)
      ensures this.no == no && this.page == page && next == null
    {
      this.no, this.page, next := no, page, null;
    }
  }

  /** A pending entry with the page its callback gets. */
  class Entry {
    const id: nat
    const kind: Kind
    const page: PageNode
    var next: Entry?

    constructor (id: nat, kind: Kind, page: PageNode)
      ensures this.id == id && this.kind == kind && this.page == page && next == null
    {
      this.id, this.kind, this.page, next := id, kind, page, null;
    }
  }

  ghost predicate NoRepeats<T>(s: seq<T>) {
    forall i, j :: 0 <= i < j < |s| ==> s[i] != s[j]
  }

  ghost function Without<T>(s: seq<T>, k: nat): (r: seq<T>)
    requires k < |s|
    ensures |r| == |s| - 1 && forall i :: 0 <= i < |r| ==> r[i] == s[if i < k then i else i + 1]
  {
    s[..k] + s[k + 1..]
  }

  lemma WithoutNoRepeats<T>(s: seq<T>, k: nat)
    requires k < |s| && NoRepeats(s)
    ensures NoRepeats(Without(s, k))
  {
  }

  // ---------------------------------------------------------- pages

  ghost function NodeAt(list: seq<PageNode>, i: nat): (n: PageNode?) {
    if i < |list| then list[i] else null
  }

  /** Every page points to the one after it, the last one to none. */
  ghost predicate PagesLinked(list: seq<PageNode>)
    reads list`next
  {
    forall i :: 0 <= i < |list| ==> list[i].next == NodeAt(list, i + 1)
  }

  /** With the link that leads to a page redirected, the others form a chain. */
  lemma PageCut(list: seq<PageNode>, k: nat)
    requires k < |list|
    requires forall i :: 0 <= i < |list| && i != k - 1 ==> list[i].next == NodeAt(list, i + 1)
    requires k > 0 ==> list[k - 1].next == NodeAt(list, k + 1)
    ensures PagesLinked(Without(list, k))
  {
  }

  /** The pages in order of creation, and their contents. */
  ghost predicate Numbered(all: seq<PageNode>, store: seq<Page>)
    reads all
  {
    |store| == |all| && forall i :: 0 <= i < |all| ==> all[i].no == i && all[i].page == store[i]
  }

  /** The linked pages and their numbers. */
  ghost predicate Known(list: seq<PageNode>, active: seq<nat>, all: seq<PageNode>) {
    |active| == |list| && forall i :: 0 <= i < |list| ==> list[i].no == active[i] < |all| && all[active[i]] == list[i]
  }

  lemma KnownWithout(list: seq<PageNode>, active: seq<nat>, all: seq<PageNode>, k: nat)
    requires k < |list| && Known(list, active, all)
    ensures Known(Without(list, k), Without(active, k), all)
  {
  }

  lemma WithoutTail(s: seq<nat>, k: nat)
    requires 0 < k < |s|
    ensures Without(s, k) == [s[0]] + Without(s[1..], k - 1)
  {
  }

  lemma WithoutHead(s: seq<nat>)
    requires s != []
    ensures Without(s, 0) == s[1..]
  {
  }

  lemma {:induction false} RemoveAt(s: seq<nat>, p: nat, k: nat)
    requires k <= |s| && (k < |s| ==> s[k] == p) && forall i :: 0 <= i < k ==> s[i] != p
    ensures Remove(s, p) == if k < |s| then Without(s, k) else s
    decreases k
  {
    hide Without;
    if k > 0 {
      RemoveAt(s[1..], p, k - 1);
      if k < |s| { WithoutTail(s, k); }
    } else if s != [] {
      WithoutHead(s);
    }
  }

  class PageList {
    var head: PageNode?
    ghost var list: seq<PageNode>
    ghost var active: seq<nat>
    ghost var all: seq<PageNode>
    ghost var store: seq<Page>

    ghost predicate Has(n: PageNode)
      reads this
    {
      n.no < |all| && all[n.no] == n
    }

    ghost predicate Valid()
      reads this, all, list
    {
      && Numbered(all, store)
      && Known(list, active, all)
      && NoRepeats(list)
      && head == NodeAt(list, 0)
      && PagesLinked(list)
    }

    constructor ()
      ensures Valid() && list == [] && all == [] && active == [] && store == []
    {
      head, list, all, active, store := null, [], [], [], [];
    }

    /** A new page, not yet in the list. */
    method Create(page: Page) returns (n: PageNode)
      requires Valid()
      modifies this
      ensures Valid() && fresh(n) && n.no == |old(all)| && n.page == page && n !in list
      ensures list == old(list) && active == old(active) && all == old(all) + [n] && store == old(store) + [page]
    {
      n := new PageNode(|all|, page);
      all, store := all + [n], store + [page];
    }

    /** chromecdp_start_page_for_node: the page becomes the head. */
    method PushFront(n: PageNode)
      requires Valid() && Has(n) && n !in list
      modifies this, n`next
      ensures Valid() && list == [n] + old(list) && active == [n.no] + old(active)
      ensures all == old(all) && store == old(store)
    {
      n.next := head;
      head := n;
      list, active := [n] + list, [n.no] + active;
    }

    method Set(n: PageNode, page: Page)
      requires Valid() && Has(n)
      modifies this`store, n`page
      ensures Valid() && store == old(store)[n.no := page]
    {
      n.page := page;
      store := store[n.no := page];
    }

    /** chromecdp_count_pages: the linked pages, counted along the links. */
    method Count() returns (k: nat)
      requires Valid()
      ensures k == |active|
    {
      k := 0;
      var p := head;
      while p != null
        invariant k <= |list| && p == NodeAt(list, k)
        decreases |list| - k
      {
        assert p == list[k];
        k := k + 1;
        p := p.next;
      }
    }

    /** The walk to a page or to the end of the list, with the page before it. */
    method Find(n: PageNode) returns (prev: PageNode?, p: PageNode?, ghost k: nat)
      requires Valid()
      ensures k <= |list| && p == NodeAt(list, k) && (p == null || p == n)
      ensures k == 0 ==> prev == null
      ensures k > 0 ==> prev == list[k - 1]
      ensures forall i :: 0 <= i < k ==> list[i] != n
    {
      hide Known, Numbered, NoRepeats;
      k, prev, p := 0, null, head;
      while p != null && p != n
        invariant k <= |list| && p == NodeAt(list, k)
        invariant k == 0 ==> prev == null
        invariant k > 0 ==> prev == list[k - 1]
        invariant forall i :: 0 <= i < k ==> list[i] != n
        decreases |list| - k
      {
        assert p == list[k];
        k := k + 1;
        prev, p := p, p.next;
      }
    }

    /** Where a walk ends is where the page's number is found. */
    lemma FoundNumber(n: PageNode, k: nat)
      requires Valid() && Has(n) && k <= |list| && (k < |list| ==> list[k] == n)
      requires forall i :: 0 <= i < k ==> list[i] != n
      ensures Remove(active, n.no) == if k < |list| then Without(active, k) else active
      ensures n.no in active <==> k < |list|
    {
      hide Remove, Without;
      RemoveAt(active, n.no, k);
    }

    /** on_cdp_event: whether a page is linked. */
    method Contains(n: PageNode) returns (found: bool)
      requires Valid() && Has(n)
      ensures found <==> n.no in active
    {
      hide Remove, Without;
      var _, p, k := Find(n);
      FoundNumber(n, k);
      found := p != null;
    }

    /** The link that leads to a page is set to the one after it. */
    method Redirect(prev: PageNode?, p: PageNode, ghost k: nat)
      requires Valid() && k < |list| && p == list[k]
      requires prev == if k == 0 then null else list[k - 1]
      modifies this`head, list`next
      ensures PagesLinked(Without(list, k)) && head == NodeAt(Without(list, k), 0) && Numbered(all, store)
    {
      if prev == null {
        head := p.next;
      } else {
        prev.next := p.next;
      }
      PageCut(list, k);
    }

    method Cut(prev: PageNode?, p: PageNode, ghost k: nat)
      requires Valid() && k < |list| && p == list[k]
      requires prev == if k == 0 then null else list[k - 1]
      modifies this`head, this`list, this`active, list`next
      ensures Valid() && list == Without(old(list), k) && active == Without(old(active), k)
    {
      hide PagesLinked, NoRepeats, Known, Numbered, Without;
      WithoutNoRepeats(list, k);
      KnownWithout(list, active, all, k);
      Redirect(prev, p, k);
      list, active := Without(list, k), Without(active, k);
    }

    /** on_page_done: a page is unlinked through the link that leads to it, if there is one; its own link stays. */
    method Unlink(n: PageNode)
      requires Valid() && Has(n)
      modifies this`head, this`list, this`active, list`next
      ensures Valid() && active == Remove(old(active), n.no)
    {
      hide Valid, Remove, Without;
      var prev, p, k := Find(n);
      FoundNumber(n, k);
      if p != null { Cut(prev, p, k); }
    }

    /** chromecdp_abandon_all_pages: the list is emptied before the walk; the pages keep their links. */
    method Detach() returns (first: PageNode?)
      requires Valid()
      modifies this`head, this`list, this`active
      ensures Valid() && list == [] && active == []
      ensures first == NodeAt(old(list), 0) && PagesLinked(old(list))
    {
      first := head;
      head, list, active := null, [], [];
    }
  }

  // ---------------------------------------------------------- pending entries

  ghost function EntryAt(list: seq<Entry>, i: nat): (e: Entry?) {
    if i < |list| then list[i] else null
  }

  ghost predicate EntriesLinked(list: seq<Entry>)
    reads list
  {
    forall i :: 0 <= i < |list| ==> list[i].next == EntryAt(list, i + 1)
  }

  lemma EntryCut(list: seq<Entry>, k: nat)
    requires k < |list|
    requires forall i :: 0 <= i < |list| && i != k - 1 ==> list[i].next == EntryAt(list, i + 1)
    requires k > 0 ==> list[k - 1].next == EntryAt(list, k + 1)
    ensures EntriesLinked(Without(list, k))
  {
  }

  ghost predicate Shows(list: seq<Entry>, entries: seq<Pending>) {
    && |entries| == |list|
    && forall i :: 0 <= i < |list| ==> entries[i] == Pending(list[i].id, list[i].kind, list[i].page.no)
  }

  lemma ShowsWithout(list: seq<Entry>, entries: seq<Pending>, k: nat)
    requires k < |list| && Shows(list, entries)
    ensures Shows(Without(list, k), Without(entries, k))
  {
  }

  class PendingList {
    var head: Entry?
    var tail: Entry?
    ghost var list: seq<Entry>
    ghost var entries: seq<Pending>

    ghost predicate Valid()
      reads this, list
    {
      && Shows(list, entries)
      && NoRepeats(list)
      && head == EntryAt(list, 0)
      && tail == (if list == [] then null else list[|list| - 1])
      && EntriesLinked(list)
    }

    constructor ()
      ensures Valid() && list == [] && entries == []
    {
      head, tail, list, entries := null, null, [], [];
    }

    /** cdp_send: a new entry behind the last one. */
    method Append(id: nat, kind: Kind, page: PageNode) returns (e: Entry)
      requires Valid()
      modifies this, list`next
      ensures Valid() && fresh(e) && e.page == page && list == old(list) + [e]
      ensures entries == old(entries) + [Pending(id, kind, page.no)]
    {
      e := new Entry(id, kind, page);
      if head == null {
        head, tail := e, e;
      } else {
        tail.next := e;
        tail := e;
      }
      list, entries := list + [e], entries + [Pending(id, kind, page.no)];
    }

    /** The walk to the first entry with a number, or to the end, with the entry before it. */
    method Find(id: nat) returns (prev: Entry?, e: Entry?, ghost k: nat)
      requires Valid()
      ensures k == Position(entries, id) && e == EntryAt(list, k)
      ensures k == 0 ==> prev == null
      ensures k > 0 ==> prev == list[k - 1]
    {
      hide NoRepeats;
      k, prev, e := 0, null, head;
      while e != null && e.id != id
        invariant k <= |list| && e == EntryAt(list, k)
        invariant k == 0 ==> prev == null
        invariant k > 0 ==> prev == list[k - 1]
        invariant forall i :: 0 <= i < k ==> list[i].id != id
        decreases |list| - k
      {
        assert e == list[k];
        k := k + 1;
        prev, e := e, e.next;
      }
      PositionIs(entries, id, k);
    }

    /** The link that leads to an entry, and the tail if need be, are moved past it. */
    method Redirect(prev: Entry?, e: Entry, ghost k: nat)
      requires Valid() && k < |list| && e == list[k]
      requires prev == if k == 0 then null else list[k - 1]
      modifies this`head, this`tail, list`next
      ensures EntriesLinked(Without(list, k)) && head == EntryAt(Without(list, k), 0)
      ensures var r := Without(list, k); tail == if r == [] then null else r[|r| - 1]
    {
      hide Shows, Without;
      if prev == null {
        head := e.next;
      } else {
        prev.next := e.next;
      }
      EntryCut(list, k);
      if tail == e {
        tail := prev;
      }
    }

    /** cdp_ws_message: the first entry with the number is unlinked and handed out. */
    method Take(id: nat) returns (e: Entry?)
      requires Valid()
      modifies this, list`next
      ensures Valid()
      ensures var i := Position(old(entries), id);
              && e == EntryAt(old(list), i)
              && (e == null ==> list == old(list) && entries == old(entries))
              && (e != null ==> list == Without(old(list), i) && entries == Without(old(entries), i))
    {
      hide EntriesLinked, NoRepeats, Shows, Without;
      var prev, p, k := Find(id);
      e := p;
      if e == null { return; }
      WithoutNoRepeats(list, k);
      ShowsWithout(list, entries, k);
      Redirect(prev, e, k);
      list, entries := Without(list, k), Without(entries, k);
    }

    /** cdp_session_free: no entry is called back. */
    method Clear()
      modifies this
      ensures Valid() && list == [] && entries == []
    {
      head, tail, list, entries := null, null, [], [];
    }
  }

  lemma PositionIs(pending: seq<Pending>, id: nat, i: nat)
    requires i <= |pending| && (i < |pending| ==> pending[i].id == id)
    requires forall j :: 0 <= j < i ==> pending[j].id != id
    ensures i == Position(pending, id)
  {
  }
}
