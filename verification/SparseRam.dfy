/** The RAM model: 64KB pages allocated on first write, linked into a list in address
    order and into hash chains, with a valid flag for every word. */
module SparseRam {
  import opened Words
  import opened FlatMemory

  const PAGE_BYTES: nat := 0x1_0000
  const PAGE_WORDS: nat := 0x4000
  const FLAG_BYTES: nat := 0x800
  const HASH_SIZE: nat := 256

  /** A byte of valid flags. */
  type Octet = s: seq<bool> | |s| == 8 witness seq(8, i => false)

  const NO_FLAGS: Octet := seq(8, i => false)

  class Page {
    const base: nat
    var validFlags: seq<Octet>
    var data: seq<Word>
    var nextInOrder: Page?
    var nextHashed: Page?

    constructor (base: nat)
      ensures this.base == base && SizesOk() && forall w: nat | w < PAGE_WORDS :: !HasWord(w)
    {
      this.base := base;
      validFlags := seq(FLAG_BYTES, _ => NO_FLAGS);
      data := seq(PAGE_WORDS, _ => 0);
      nextInOrder, nextHashed := null, null;
    }

    ghost predicate SizesOk()
      reads `validFlags, `data
    {
      |validFlags| == FLAG_BYTES && |data| == PAGE_WORDS
    }

    /** Word w of the page has been written. */
    ghost predicate HasWord(w: nat)
      requires w < PAGE_WORDS && SizesOk()
      reads `validFlags, `data
    {
      validFlags[w / 8][w % 8]
    }

    /** The valid flag that the source picks out for an address in the page. */
    predicate Flag(a: nat)
      requires SizesOk()
      reads `validFlags, `data
      ensures Flag(a) <==> HasWord(WordOf(a))
    {
      WordPlace(a);
      validFlags[a / 32 % FLAG_BYTES][a / 4 % 8]
    }

    method Store(a: nat, value: Word)
      requires SizesOk()
      modifies `validFlags, `data
      ensures SizesOk() && data == old(data)[WordOf(a) := value]
      ensures forall w: nat | w < PAGE_WORDS :: HasWord(w) <==> w == WordOf(a) || old(HasWord(w))
    {
      var place := a / 32 % FLAG_BYTES;
      var flags: Octet := validFlags[place][a / 4 % 8 := true];
      WordPlace(a);
      validFlags := validFlags[place := flags];
      data := data[a % PAGE_BYTES / 4 := value];
      hide WordOf;
      forall w: nat | w < PAGE_WORDS ensures HasWord(w) <==> w == WordOf(a) || old(HasWord(w)) {
        if w / 8 == place && w % 8 == a / 4 % 8 {
          assert w == WordOf(a);
        }
      }
    }
  }

  /** Index of the addressed word in its page. */
  function WordOf(a: nat): (w: nat)
    ensures w < PAGE_WORDS
  {
    a % PAGE_BYTES / 4
  }

  /** The word of the flat memory that word w of the page at base stands for. */
  function WordNumber(base: nat, w: nat): (n: nat) {
    base / 4 + w
  }

  function PageOfWord(n: nat): (base: nat) {
    n / PAGE_WORDS * PAGE_BYTES
  }

  lemma WordPlace(a: nat)
    ensures a / 32 % FLAG_BYTES == WordOf(a) / 8 && a / 4 % 8 == WordOf(a) % 8
    ensures WordNumber(BaseOf(a), WordOf(a)) == a / 4
  {
    var q, r := a / PAGE_BYTES, a % PAGE_BYTES;
    assert a / 4 == PAGE_WORDS * q + r / 4;
    assert a / 32 == FLAG_BYTES * q + r / 32;
    RemainderUnique(FLAG_BYTES, q, r / 32);
    RemainderUnique(8, FLAG_BYTES * q + r / 32, r / 4 % 8);
  }

  lemma RemainderUnique(m: nat, q: nat, r: nat)
    requires r < m
    ensures (m * q + r) % m == r
  {
    QuotientUnique(m * q + r, m, q, r);
  }

  lemma WordNumbers(base: nat, w: nat)
    requires BaseOf(base) == base && w < PAGE_WORDS
    ensures PageOfWord(WordNumber(base, w)) == base
    ensures forall v: nat | v < PAGE_WORDS && v != w :: WordNumber(base, v) != WordNumber(base, w)
  {
    var k := base / PAGE_BYTES;
    assert base / 4 == k * PAGE_WORDS;
    assert (k * PAGE_WORDS + w) / PAGE_WORDS == k;
  }

  function HashEntry(address: nat): (h: nat)
    ensures h < HASH_SIZE
  {
    Xor(address / PAGE_BYTES, address / PAGE_BYTES / 256) % HASH_SIZE
  }

  function BaseOf(address: nat): (b: nat) {
    address / PAGE_BYTES * PAGE_BYTES
  }

  lemma HashOfBase(address: nat)
    ensures HashEntry(BaseOf(address)) == HashEntry(address)
    ensures BaseOf(BaseOf(address)) == BaseOf(address)
  {
    assert BaseOf(address) / PAGE_BYTES == address / PAGE_BYTES;
  }

  // ----- lists of pages -----

  ghost function Head(s: seq<Page>): (p: Page?) {
    if s == [] then null else s[0]
  }

  ghost function After(s: seq<Page>, i: nat): (p: Page?)
    requires i < |s|
  {
    if i + 1 < |s| then s[i + 1] else null
  }

  /** Strictly ascending base addresses: sorted and free of duplicates. */
  ghost predicate Sorted(s: seq<Page>) {
    forall i, j | 0 <= i < j < |s| :: s[i].base < s[j].base
  }

  ghost function Insert(s: seq<Page>, k: nat, p: Page): (t: seq<Page>)
    requires k <= |s|
    ensures |t| == |s| + 1
  {
    s[..k] + [p] + s[k..]
  }

  lemma InsertAt(s: seq<Page>, k: nat, p: Page, i: nat)
    requires k <= |s| && i <= |s|
    ensures Insert(s, k, p)[i] == if i < k then s[i] else if i == k then p else s[i - 1]
  {
  }

  lemma InsertAfter(s: seq<Page>, k: nat, p: Page, i: nat)
    requires k <= |s| && i <= |s|
    ensures After(Insert(s, k, p), i)
            == if i + 1 < k then After(s, i)
               else if i + 1 == k then p
               else if i == k then (if k < |s| then s[k] else null)
               else After(s, i - 1)
  {
    if i < |s| {
      InsertAt(s, k, p, i + 1);
    }
  }

  lemma InsertSorted(s: seq<Page>, k: nat, p: Page)
    requires Sorted(s) && k <= |s|
    requires forall i | 0 <= i < k :: s[i].base < p.base
    requires forall i | k <= i < |s| :: p.base < s[i].base
    ensures Sorted(Insert(s, k, p))
  {
    var t := Insert(s, k, p);
    assert forall i | 0 <= i < |t| :: t[i] == if i < k then s[i] else if i == k then p else s[i - 1];
  }

  lemma InsertMembers(s: seq<Page>, k: nat, p: Page)
    requires k <= |s|
    ensures forall q <- Insert(s, k, p) :: q in s || q == p
    ensures forall q <- s :: q in Insert(s, k, p)
    ensures p in Insert(s, k, p)
    ensures Head(Insert(s, k, p)) == if k == 0 then p else Head(s)
  {
    assert s == s[..k] + s[k..];
  }

  ghost function WithPage(chains: seq<seq<Page>>, k: nat, page: Page): (r: seq<seq<Page>>)
    requires |chains| == HASH_SIZE && k <= |chains[HashEntry(page.base)]|
    ensures |r| == HASH_SIZE
  {
    chains[HashEntry(page.base) := Insert(chains[HashEntry(page.base)], k, page)]
  }

  /** Every page is in the sorted chain of its hash entry, and in no other. */
  ghost predicate ChainsCover(order: seq<Page>, chains: seq<seq<Page>>) {
    && |chains| == HASH_SIZE
    && (forall h | 0 <= h < HASH_SIZE :: Sorted(chains[h]))
    && (forall h, p: Page | 0 <= h < HASH_SIZE && p in chains[h] :: p in order && HashEntry(p.base) == h)
    && (forall p <- order :: p in chains[HashEntry(p.base)])
  }

  lemma InsertKeepsCover(order: seq<Page>, chains: seq<seq<Page>>, p: Page, i: nat, k: nat)
    requires ChainsCover(order, chains)
    requires i <= |order| && k <= |chains[HashEntry(p.base)]|
    requires Sorted(Insert(chains[HashEntry(p.base)], k, p))
    ensures ChainsCover(Insert(order, i, p), WithPage(chains, k, p))
  {
    hide HashEntry, Sorted, Insert;
    var h := HashEntry(p.base);
    InsertMembers(order, i, p);
    InsertMembers(chains[h], k, p);
    var chains' := chains[h := Insert(chains[h], k, p)];
    var order' := Insert(order, i, p);
    forall g, q: Page | 0 <= g < HASH_SIZE && q in chains'[g] ensures q in order' && HashEntry(q.base) == g {
    }
    forall q <- order' ensures q in chains'[HashEntry(q.base)] {
    }
  }

  lemma NewToChainIsNew(order: seq<Page>, chains: seq<seq<Page>>, base: nat, k: nat, last: Page?, next: Page?)
    requires ChainsCover(order, chains) && Position(chains[HashEntry(base)], k, base, last, next)
    ensures forall p <- order :: p.base != base
  {
    hide HashEntry;
    forall p <- order ensures p.base != base {
      var chain := chains[HashEntry(p.base)];
      var i :| 0 <= i < |chain| && chain[i] == p;
    }
  }

  /** The words that the page holds are those of the flat memory. */
  ghost predicate PageAgrees(p: Page, words: map<nat, Word>)
    requires p.SizesOk()
    reads p`validFlags, p`data
  {
    forall w: nat | w < PAGE_WORDS ::
      && (p.HasWord(w) <==> WordNumber(p.base, w) in words)
      && (p.HasWord(w) ==> words[WordNumber(p.base, w)] == p.data[w])
  }

  ghost predicate PagesOk(order: seq<Page>)
    reads order`validFlags, order`data
  {
    forall p <- order :: p.SizesOk() && BaseOf(p.base) == p.base
  }

  /** The pages hold the words of the flat memory and nothing else. */
  ghost predicate Agrees(order: seq<Page>, words: map<nat, Word>)
    requires PagesOk(order)
    reads order`validFlags, order`data
  {
    && (forall p <- order :: PageAgrees(p, words))
    && (forall n <- words :: exists p <- order :: p.base == PageOfWord(n))
  }

  ghost predicate OrderIn(order: seq<Page>, frame: set<object>) {
    forall i | 0 <= i < |order| :: order[i] in frame
  }

  class Ram {
    const memorySize: MemorySize
    var pageList: Page?
    const hashedPages: array<Page?>

    // the lists as sequences, and the flat memory they stand for
    ghost var order: seq<Page>
    ghost var chains: seq<seq<Page>>
    ghost var flat: Memory

    ghost var Repr: set<object>

    ghost predicate Valid()
      reads this, Repr
    {
      && this in Repr && hashedPages in Repr && OrderIn(order, Repr)
      && Holds()
    }

    ghost predicate Holds()
      reads `pageList, `order, `chains, `flat, hashedPages, order
    {
      && Lists(hashedPages, pageList, order, chains)
      && PagesOk(order) && flat.size == memorySize && Agrees(order, flat.words)
    }

    constructor (memorySize: MemorySize)
      ensures Valid() && fresh(Repr)
      ensures flat == Memory(memorySize, map[])
    {
      this.memorySize := memorySize;
      pageList := null;
      hashedPages := new Page?[HASH_SIZE](_ => null);
      order := [];
      chains := seq(HASH_SIZE, h => []);
      flat := Memory(memorySize, map[]);
      Repr := {this, hashedPages};
    }

    method FindPage(address: nat) returns (page: Page?)
      requires Lists(hashedPages, pageList, order, chains)
      ensures page == null ==> forall p <- order :: p.base != BaseOf(address)
      ensures page != null ==> page in order && page.base == BaseOf(address)
    {
      hide HashEntry, BaseOf, Sorted, HashLinks, AllHashLinks;
      var h := HashEntry(address);
      ChainOk(hashedPages, order, chains, h);
      page := SearchChain(hashedPages[h], chains[h], BaseOf(address));
      HashOfBase(address);
    }

    /** The page of the address, made and linked into both lists when there is none. */
    method AllocatePage(address: nat) returns (page: Page)
      requires Lists(hashedPages, pageList, order, chains)
      requires PagesOk(order) && flat.size == memorySize && Agrees(order, flat.words)
      modifies this, hashedPages, order
      ensures Lists(hashedPages, pageList, order, chains)
      ensures PagesOk(order) && flat == old(flat) && Repr == old(Repr) && Agrees(order, flat.words)
      ensures page in order && page.base == BaseOf(address)
      ensures forall p <- order :: p in old(order) || fresh(p)
    {
      hide *;
      var h := HashEntry(address);
      var base := BaseOf(address);
      HashOfBase(address);
      ListsChain(hashedPages, pageList, order, chains, h);
      var found, last, next, k := HashedPosition(hashedPages[h], chains[h], base);
      if found != null {
        return found;
      }
      NewToChainIsNew(order, chains, base, k, last, next);
      var head;
      ghost var i;
      page, head, i := NewPage(hashedPages, pageList, order, chains, base, h, k, last, next);
      AgreesWithEmptyPage(order, i, page, flat.words);
      Adopt(head, Insert(order, i, page), WithPage(chains, k, page));
    }

    method Adopt(head: Page?, ghost order': seq<Page>, ghost chains': seq<seq<Page>>)
      requires Lists(hashedPages, head, order', chains')
      requires PagesOk(order') && flat.size == memorySize && Agrees(order', flat.words)
      modifies this
      ensures Lists(hashedPages, pageList, order, chains) && order == order' && flat == old(flat) && Repr == old(Repr)
      ensures PagesOk(order) && Agrees(order, flat.words)
    {
      hide *;
      pageList, order, chains := head, order', chains';
    }

    method Read(address: Word) returns (data: Word)
      requires Valid()
      ensures data == flat.Read(address)
    {
      var a := address % memorySize;
      var page := FindPage(a);
      hide Lists, PagesOk, Agrees, Page.HasWord, Page.Flag, BaseOf, WordOf, WordNumber, PageOfWord;
      if page == null {
        AbsentWord(order, flat.words, a);
        return NEVER_WRITTEN;
      }
      WordHeld(order, flat.words, page, a);
      if !page.Flag(a) {
        return NEVER_WRITTEN;
      }
      return page.data[WordOf(a)];
    }

    method Write(address: Word, data: Word, bytes: nat)
      requires Valid()
      modifies Repr
      ensures Valid() && flat == old(flat).Write(address, data, bytes)
      ensures old(Repr) <= Repr && fresh(Repr - old(Repr))
    {
      hide Holds;
      WriteWord(address, data, bytes);
      Repr := Repr + set p <- order;
    }

    method WriteWord(address: Word, data: Word, bytes: nat)
      requires Holds()
      modifies this, hashedPages, order
      ensures Holds() && flat == old(flat).Write(address, data, bytes) && Repr == old(Repr)
      ensures forall p <- order :: p in old(order) || fresh(p)
    {
      hide Lists, PagesOk, Agrees, Page.HasWord, Page.Flag, BaseOf, WordOf, WordNumber, PageOfWord;
      var a := address % memorySize;
      var page := FindPage(a);
      if page == null {
        page := AllocatePage(a);
      }
      WordHeld(order, flat.words, page, a);
      var oldValue := 0;
      if page.Flag(a) {
        oldValue := page.data[WordOf(a)];
      }
      var newValue := MergeBytes(oldValue, data, bytes);
      ListsSorted(hashedPages, pageList, order, chains);
      PutWord(order, flat.words, page, a, newValue);
      flat := flat.Write(address, data, bytes);
    }
  }

  lemma AbsentWord(order: seq<Page>, words: map<nat, Word>, a: nat)
    requires PagesOk(order) && Agrees(order, words)
    requires forall p <- order :: p.base != BaseOf(a)
    ensures a / 4 !in words
  {
    WordPlace(a);
    HashOfBase(a);
    WordNumbers(BaseOf(a), WordOf(a));
  }

  lemma WordHeld(order: seq<Page>, words: map<nat, Word>, page: Page, a: nat)
    requires PagesOk(order) && Agrees(order, words)
    requires page in order && page.base == BaseOf(a)
    ensures page.SizesOk() && (page.Flag(a) <==> a / 4 in words)
    ensures page.Flag(a) ==> words[a / 4] == page.data[WordOf(a)]
  {
    hide Page.HasWord, BaseOf, WordNumber, WordOf;
    WordPlace(a);
    assert PageAgrees(page, words);
  }

  lemma AgreesWithEmptyPage(order: seq<Page>, i: nat, page: Page, words: map<nat, Word>)
    requires i <= |order| && PagesOk(order) && Agrees(order, words)
    requires page.SizesOk() && BaseOf(page.base) == page.base && forall w: nat | w < PAGE_WORDS :: !page.HasWord(w)
    requires forall p <- order :: p.base != page.base
    ensures PagesOk(Insert(order, i, page)) && Agrees(Insert(order, i, page), words)
  {
    hide Insert, BaseOf, Page.HasWord, WordNumber, PageOfWord;
    InsertMembers(order, i, page);
    forall w: nat | w < PAGE_WORDS ensures WordNumber(page.base, w) !in words {
      WordNumbers(page.base, w);
    }
  }

  /** Stores a word and marks it valid. */
  method PutWord(ghost order: seq<Page>, ghost words: map<nat, Word>, page: Page, a: nat, value: Word)
    requires PagesOk(order) && Agrees(order, words) && Sorted(order)
    requires page in order && page.base == BaseOf(a)
    modifies page`validFlags, page`data
    ensures PagesOk(order) && Agrees(order, words[a / 4 := value])
  {
    hide BaseOf, Page.HasWord, WordNumber, PageOfWord, WordOf;
    page.Store(a, value);
    WordPlace(a);
    WordNumbers(BaseOf(a), WordOf(a));
    forall p <- order ensures PageAgrees(p, words[a / 4 := value]) {
      if p != page {
        forall w: nat | w < PAGE_WORDS ensures WordNumber(p.base, w) != a / 4 {
          WordNumbers(p.base, w);
        }
      }
    }
  }

  /** Replaces the selected byte lanes one after the other. */
  method MergeBytes(oldValue: Word, data: Word, bytes: nat) returns (value: Word)
    ensures value == MergeLanes(oldValue, data, bytes)
  {
    value := oldValue;
    if bytes % 2 == 1 {
      value := FromLanes(Lane(data, 0), Lane(value, 1), Lane(value, 2), Lane(value, 3));
    }
    if bytes / 2 % 2 == 1 {
      value := FromLanes(Lane(value, 0), Lane(data, 1), Lane(value, 2), Lane(value, 3));
    }
    if bytes / 4 % 2 == 1 {
      value := FromLanes(Lane(value, 0), Lane(value, 1), Lane(data, 2), Lane(value, 3));
    }
    if bytes / 8 % 2 == 1 {
      value := FromLanes(Lane(value, 0), Lane(value, 1), Lane(value, 2), Lane(data, 3));
    }
    LanesDetermineWord(value, MergeLanes(oldValue, data, bytes));
  }

  ghost predicate ChainHeads(hashedPages: array<Page?>, chains: seq<seq<Page>>)
    reads hashedPages
  {
    && hashedPages.Length == HASH_SIZE && |chains| == HASH_SIZE
    && forall h | 0 <= h < HASH_SIZE :: hashedPages[h] == Head(chains[h])
  }

  ghost predicate HashLinks(chain: seq<Page>)
    reads chain`nextHashed
  {
    forall i | 0 <= i < |chain| :: chain[i].nextHashed == After(chain, i)
  }

  ghost predicate AllHashLinks(order: seq<Page>, chains: seq<seq<Page>>)
    reads order`nextHashed
  {
    forall h, i | 0 <= h < |chains| && 0 <= i < |chains[h]| ::
      chains[h][i] in order && chains[h][i].nextHashed == After(chains[h], i)
  }

  ghost predicate OrderLinks(list: seq<Page>)
    reads list`nextInOrder
  {
    forall i | 0 <= i < |list| :: list[i].nextInOrder == After(list, i)
  }

  /** Walks a hash chain for the page with the given base. */
  method SearchChain(head: Page?, ghost chain: seq<Page>, base: nat) returns (page: Page?)
    requires head == Head(chain) && HashLinks(chain)
    ensures page == null ==> forall p <- chain :: p.base != base
    ensures page != null ==> page in chain && page.base == base
  {
    page := head;
    ghost var i := 0;
    while page != null
      invariant 0 <= i <= |chain|
      invariant page == if i < |chain| then chain[i] else null
      invariant forall j | 0 <= j < i :: chain[j].base != base
      decreases |chain| - i
    {
      if page.base == base {
        return;
      }
      page := page.nextHashed;
      i := i + 1;
    }
  }

  /** Walks a hash chain for the page, or for the place where it belongs. */
  method HashedPosition(head: Page?, ghost chain: seq<Page>, base: nat)
    returns (found: Page?, last: Page?, next: Page?, ghost k: nat)
    requires head == Head(chain) && HashLinks(chain) && Sorted(chain)
    ensures found != null ==> found in chain && found.base == base
    ensures found == null ==> Position(chain, k, base, last, next)
  {
    hide Sorted;
    found, last, next, k := null, null, head, 0;
    while next != null
      invariant 0 <= k <= |chain|
      invariant next == if k < |chain| then chain[k] else null
      invariant last == if k > 0 then chain[k - 1] else null
      invariant forall j | 0 <= j < k :: chain[j].base < base
      decreases |chain| - k
    {
      if next.base == base {
        return next, null, null, 0;
      }
      if next.base > base {
        break;
      }
      last := next;
      next := next.nextHashed;
      k := k + 1;
    }
    RestAbove(chain, k, base);
  }

  /** The place in address order; the page is known not to be in the list. */
  method OrderPosition(head: Page?, ghost list: seq<Page>, base: nat) returns (last: Page?, next: Page?, ghost k: nat)
    requires head == Head(list) && OrderLinks(list) && Sorted(list)
    requires forall p <- list :: p.base != base
    ensures Position(list, k, base, last, next)
  {
    hide Sorted;
    last, next, k := null, head, 0;
    while next != null
      invariant 0 <= k <= |list|
      invariant next == if k < |list| then list[k] else null
      invariant last == if k > 0 then list[k - 1] else null
      invariant forall j | 0 <= j < k :: list[j].base < base
      decreases |list| - k
    {
      if next.base > base {
        break;
      }
      last := next;
      next := next.nextInOrder;
      k := k + 1;
    }
    RestAbove(list, k, base);
  }

  lemma RestAbove(s: seq<Page>, k: nat, base: nat)
    requires Sorted(s) && (k < |s| ==> base < s[k].base)
    ensures forall j | k <= j < |s| :: base < s[j].base
  {
  }

  /** base belongs between last and next, at position k of the list. */
  ghost predicate Position(s: seq<Page>, k: nat, base: nat, last: Page?, next: Page?) {
    && k <= |s|
    && next == (if k < |s| then s[k] else null)
    && last == (if k > 0 then s[k - 1] else null)
    && (forall j | 0 <= j < k :: s[j].base < base)
    && (forall j | k <= j < |s| :: base < s[j].base)
  }

  lemma OnlyLast(s: seq<Page>, k: nat, p: Page, last: Page?, next: Page?)
    requires Sorted(s) && Position(s, k, p.base, last, next)
    ensures forall j | 0 <= j < |s| :: s[j] == last ==> j == k - 1
    ensures last != null ==> last in s
    ensures k <= |s| && (last == null <==> k == 0)
    ensures p !in s && Sorted(Insert(s, k, p))
  {
    InsertSorted(s, k, p);
  }

  method LinkHashed(ghost chain: seq<Page>, ghost k: nat, last: Page?, next: Page?, p: Page)
    requires HashLinks(chain) && Sorted(chain) && Position(chain, k, p.base, last, next)
    modifies (if last == null then {p} else {p, last})`nextHashed
    ensures HashLinks(Insert(chain, k, p))
  {
    hide Insert, After, Sorted;
    OnlyLast(chain, k, p, last, next);
    if last != null {
      last.nextHashed := p;
    }
    p.nextHashed := next;
    ghost var t := Insert(chain, k, p);
    forall i | 0 <= i < |t| ensures t[i].nextHashed == After(t, i) {
      InsertAt(chain, k, p, i);
      InsertAfter(chain, k, p, i);
      assert i != k ==> t[i] in chain;
    }
  }

  method LinkInOrder(ghost list: seq<Page>, ghost k: nat, last: Page?, next: Page?, p: Page)
    requires OrderLinks(list) && Sorted(list) && Position(list, k, p.base, last, next)
    modifies (if last == null then {p} else {p, last})`nextInOrder
    ensures OrderLinks(Insert(list, k, p))
  {
    hide Insert, After, Sorted;
    OnlyLast(list, k, p, last, next);
    if last != null {
      last.nextInOrder := p;
    }
    p.nextInOrder := next;
    ghost var t := Insert(list, k, p);
    forall i | 0 <= i < |t| ensures t[i].nextInOrder == After(t, i) {
      InsertAt(list, k, p, i);
      InsertAfter(list, k, p, i);
      assert i != k ==> t[i] in list;
    }
  }

  lemma ChainOk(hashedPages: array<Page?>, order: seq<Page>, chains: seq<seq<Page>>, h: nat)
    requires ChainHeads(hashedPages, chains) && ChainsCover(order, chains) && AllHashLinks(order, chains)
    requires h < HASH_SIZE
    ensures h < hashedPages.Length && h < |chains| && hashedPages[h] == Head(chains[h]) && HashLinks(chains[h])
        && Sorted(chains[h])
    ensures forall p <- chains[h] :: p in order
  {
  }

  lemma Elsewhere(order: seq<Page>, chains: seq<seq<Page>>, page: Page, k: nat, last: Page?, next: Page?)
    requires ChainsCover(order, chains)
    requires page !in order && Position(chains[HashEntry(page.base)], k, page.base, last, next)
    ensures forall g | 0 <= g < HASH_SIZE && g != HashEntry(page.base) :: page !in chains[g] && last !in chains[g]
  {
    hide HashEntry, Sorted;
    var h := HashEntry(page.base);
    assert last != null ==> last in chains[h];
  }

  /** What LinkInChain needs to know of the chains. */
  lemma ReadyToLink(hashedPages: array<Page?>, order: seq<Page>, chains: seq<seq<Page>>,
                    page: Page, h: nat, k: nat, last: Page?, next: Page?)
    requires ChainHeads(hashedPages, chains) && ChainsCover(order, chains) && AllHashLinks(order, chains)
    requires h == HashEntry(page.base) && page !in order && Position(chains[h], k, page.base, last, next)
    ensures |chains| == HASH_SIZE && hashedPages.Length == HASH_SIZE && h < HASH_SIZE
    ensures Sorted(chains[h]) && HashLinks(chains[h]) && k <= |chains[h]| && (last == null <==> k == 0)
    ensures forall g | 0 <= g < HASH_SIZE && g != h ::
              HashLinks(chains[g]) && page !in chains[g] && last !in chains[g]
    ensures forall g | 0 <= g < HASH_SIZE :: hashedPages[g] == Head(chains[g]) && forall p <- chains[g] :: p in order
    ensures WithPage(chains, k, page)[h] == Insert(chains[h], k, page)
    ensures forall g | 0 <= g < HASH_SIZE && g != h :: WithPage(chains, k, page)[g] == chains[g]
  {
    hide HashEntry, Insert, Head, After;
    Elsewhere(order, chains, page, k, last, next);
    OnlyLast(chains[h], k, page, last, next);
    forall g | 0 <= g < HASH_SIZE ensures HashLinks(chains[g]) && forall p <- chains[g] :: p in order {
      ChainOk(hashedPages, order, chains, g);
    }
  }

  /** Links a new page into its hash chain. */
  method LinkInChain(hashedPages: array<Page?>, ghost order: seq<Page>, ghost chains: seq<seq<Page>>,
                     page: Page, h: nat, ghost k: nat, last: Page?, next: Page?)
    requires ChainHeads(hashedPages, chains) && ChainsCover(order, chains) && AllHashLinks(order, chains)
    requires h == HashEntry(page.base) && page !in order && Position(chains[h], k, page.base, last, next)
    modifies hashedPages, (if last == null then {page} else {page, last})`nextHashed
    ensures k <= |chains[h]| && ChainHeads(hashedPages, WithPage(chains, k, page))
    ensures AllHashLinks([page] + order, WithPage(chains, k, page))
  {
    hide *;
    ReadyToLink(hashedPages, order, chains, page, h, k, last, next);
    InsertMembers(chains[h], k, page);
    LinkHashed(chains[h], k, last, next, page);
    if last == null {
      hashedPages[h] := page;
    }
    ChainsLinked(hashedPages, [page] + order, WithPage(chains, k, page));
  }

  lemma SameLinks(order: seq<Page>, order': seq<Page>, chains: seq<seq<Page>>)
    requires AllHashLinks(order, chains) && forall p <- order :: p in order'
    ensures AllHashLinks(order', chains)
  {
  }

  /** A position knows its neighbours. */
  lemma LastInOrder(order: seq<Page>, chains: seq<seq<Page>>, h: nat, k: nat, base: nat, last: Page?, next: Page?)
    requires ChainsCover(order, chains) && h < HASH_SIZE && Position(chains[h], k, base, last, next)
    ensures |chains| == HASH_SIZE && Sorted(chains[h])
    ensures last != null ==> last in order
  {
  }

  lemma ListsSorted(hashedPages: array<Page?>, head: Page?, order: seq<Page>, chains: seq<seq<Page>>)
    requires Lists(hashedPages, head, order, chains)
    ensures Sorted(order)
  {
  }

  lemma ListsChain(hashedPages: array<Page?>, head: Page?, order: seq<Page>, chains: seq<seq<Page>>, h: nat)
    requires Lists(hashedPages, head, order, chains) && h < HASH_SIZE
    ensures ChainsCover(order, chains) && h < hashedPages.Length && |chains| == HASH_SIZE
    ensures hashedPages[h] == Head(chains[h]) && HashLinks(chains[h]) && Sorted(chains[h])
    ensures forall p <- chains[h] :: p in order
  {
  }

  lemma ChainsLinked(hashedPages: array<Page?>, order: seq<Page>, chains: seq<seq<Page>>)
    requires |chains| == HASH_SIZE && hashedPages.Length == HASH_SIZE
    requires forall h | 0 <= h < HASH_SIZE ::
               HashLinks(chains[h]) && hashedPages[h] == Head(chains[h]) && forall p <- chains[h] :: p in order
    ensures ChainHeads(hashedPages, chains) && AllHashLinks(order, chains)
  {
  }

  /** Both lists, linked and sorted and over the same pages. */
  ghost predicate Lists(hashedPages: array<Page?>, head: Page?, order: seq<Page>, chains: seq<seq<Page>>)
    reads hashedPages, order`nextHashed, order`nextInOrder
  {
    && head == Head(order) && Sorted(order) && OrderLinks(order)
    && ChainHeads(hashedPages, chains) && ChainsCover(order, chains) && AllHashLinks(order, chains)
  }

  /** Makes a page and links it into its hash chain and into the list in address order. */
  method NewPage(hashedPages: array<Page?>, head: Page?, ghost order: seq<Page>, ghost chains: seq<seq<Page>>,
                 base: nat, h: nat, ghost k: nat, last: Page?, next: Page?)
    returns (page: Page, head': Page?, ghost i: nat)
    requires Lists(hashedPages, head, order, chains)
    requires h == HashEntry(base) && forall p <- order :: p.base != base
    requires h < |chains| && Position(chains[h], k, base, last, next)
    modifies hashedPages, order`nextHashed, order`nextInOrder
    ensures fresh(page) && page.base == base && page.SizesOk() && forall w: nat | w < PAGE_WORDS :: !page.HasWord(w)
    ensures |chains| == HASH_SIZE && i <= |order| && k <= |chains[h]|
    ensures Lists(hashedPages, head', Insert(order, i, page), WithPage(chains, k, page))
    ensures page in Insert(order, i, page) && forall p <- Insert(order, i, page) :: p in order || p == page
  {
    hide WithPage, HashEntry, Sorted, Insert, OrderLinks, ChainHeads, ChainsCover, AllHashLinks, Position, Page.HasWord;
    LastInOrder(order, chains, h, k, base, last, next);
    page := new Page(base);
    LinkInChain(hashedPages, order, chains, page, h, k, last, next);
    var before, after;
    before, after, i := OrderPosition(head, order, base);
    OnlyLast(chains[h], k, page, last, next);
    OnlyLast(order, i, page, before, after);
    LinkInOrder(order, i, before, after, page);
    head' := if before == null then page else head;
    InsertMembers(order, i, page);
    InsertKeepsCover(order, chains, page, i, k);
    SameLinks([page] + order, Insert(order, i, page), WithPage(chains, k, page));
  }
}
