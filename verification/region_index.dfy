/** The two-level search for the region of an address. */
module RegionIndex {
  const METASIZE: nat := 256

  /** size_t arithmetic */
  const WORD: nat := 0x1_0000_0000_0000_0000

  datatype Range = Range(b: nat, e: nat, code: int)

  predicate Holds(r: Range, ip: nat) {
    r.b <= ip <= r.e
  }

  predicate Sorted(xs: seq<Range>) {
    && (forall i :: 0 <= i < |xs| ==> xs[i].b <= xs[i].e)
    && forall i, j :: 0 <= i < j < |xs| ==> xs[i].e < xs[j].b
  }

  /** The code of the range that holds the address, 0 if none does. */
  function Linear(xs: seq<Range>, ip: nat): int {
    if xs == [] then 0 else if Holds(xs[0], ip) then xs[0].code else Linear(xs[1..], ip)
  }

  lemma {:induction false} LinearAt(xs: seq<Range>, ip: nat, i: nat)
    requires Sorted(xs) && i < |xs| && Holds(xs[i], ip)
    ensures Linear(xs, ip) == xs[i].code
    decreases |xs|
  {
    if i > 0 {
      assert xs[0].e < xs[i].b;
      LinearAt(xs[1..], ip, i - 1);
    }
  }

  lemma {:induction false} LinearNone(xs: seq<Range>, ip: nat)
    requires forall i :: 0 <= i < |xs| ==> !Holds(xs[i], ip)
    ensures Linear(xs, ip) == 0
    decreases |xs|
  {
    if xs != [] {
      LinearNone(xs[1..], ip);
    }
  }

  // ---- the index ----

  /** The first range of a block starts it, its last one ends it. */
  function BlockAt(xs: seq<Range>, k: nat): Range
    requires k * METASIZE < |xs|
  {
    var last := k * METASIZE + METASIZE - 1;
    Range(xs[k * METASIZE].b, xs[if last < |xs| then last else |xs| - 1].e, 0)
  }

  function BlockCount(n: nat): nat {
    (n + METASIZE - 1) / METASIZE
  }

  /** Blocks are all but the last METASIZE ranges long; the last holds the rest. */
  predicate IsIndex(xs: seq<Range>, blocks: seq<Range>) {
    && |blocks| == BlockCount(|xs|)
    && forall k :: 0 <= k < |blocks| ==> blocks[k] == BlockAt(xs, k)
  }

  datatype Built = Index(blocks: seq<Range>) | OutOfBounds

  /** initInfo after the file is read. A list shorter than a block is read past its end, since its length
      less METASIZE wraps around. */
  method BuildIndex(xs: seq<Range>) returns (r: Built)
    requires |xs| < WORD - METASIZE
    ensures r.OutOfBounds? <==> |xs| < METASIZE
    ensures r.Index? ==> IsIndex(xs, r.blocks)
  {
    var blocks := [];
    var i := 0;
    var bound := if |xs| >= METASIZE then |xs| - METASIZE else |xs| + WORD - METASIZE;
    while i < bound
      invariant |xs| >= METASIZE || i == 0
      invariant i == |blocks| * METASIZE && (|xs| >= METASIZE ==> i < |xs|)
      invariant forall k :: 0 <= k < |blocks| ==> k * METASIZE < |xs| && blocks[k] == BlockAt(xs, k)
      decreases bound - i
    {
      if i + METASIZE - 1 >= |xs| {
        return OutOfBounds;
      }
      blocks := blocks + [Range(xs[i].b, xs[i + METASIZE - 1].e, 0)];
      i := i + METASIZE;
    }
    if i >= bound {
      blocks := blocks + [Range(xs[i].b, xs[|xs| - 1].e, 0)];
    }
    r := Index(blocks);
  }

  lemma BlockBounds(n: nat, k: nat)
    requires n > 0
    ensures k < BlockCount(n) <==> k * METASIZE < n
  {}

  /** Blocks of sorted ranges are sorted. */
  lemma BlocksSorted(xs: seq<Range>, blocks: seq<Range>)
    requires Sorted(xs) && xs != [] && IsIndex(xs, blocks)
    ensures Sorted(blocks)
  {
    forall k | 0 <= k < |blocks| ensures blocks[k].b <= blocks[k].e {
      BlockBounds(|xs|, k);
      var last := k * METASIZE + METASIZE - 1;
      var l := if last < |xs| then last else |xs| - 1;
      assert k * METASIZE < l ==> xs[k * METASIZE].e < xs[l].b;
    }
    forall j, k | 0 <= j < k < |blocks| ensures blocks[j].e < blocks[k].b {
      BlockBounds(|xs|, k);
      assert j * METASIZE + METASIZE - 1 < k * METASIZE;
    }
  }

  lemma Ends(xs: seq<Range>)
    requires Sorted(xs) && xs != []
    ensures forall i :: 0 <= i < |xs| ==> xs[0].b <= xs[i].b <= xs[i].e <= xs[|xs| - 1].e
  {
    forall i | 0 <= i < |xs| ensures xs[0].b <= xs[i].b <= xs[i].e <= xs[|xs| - 1].e {
      assert 0 < i ==> xs[0].e < xs[i].b;
      assert i < |xs| - 1 ==> xs[i].e < xs[|xs| - 1].b;
    }
  }

  // ---- the search ----

  datatype Search = Hit(at: nat) | Miss | Beyond

  lemma HitInside(xs: seq<Range>, i: nat, ip: nat)
    requires Sorted(xs) && i < |xs| && Holds(xs[i], ip)
    ensures xs[0].b <= ip <= xs[|xs| - 1].e
  {
    Ends(xs);
  }

  /** An address that lies before position at and after the one before it is in no range. */
  lemma GapIsMiss(xs: seq<Range>, first: nat, last: nat, at: nat, ip: nat)
    requires Sorted(xs) && first < |xs| && first <= last <= |xs|
    requires first <= at <= |xs| && (at == first || xs[at - 1].e < ip)
    requires at == last + 1 || (at < |xs| && ip < xs[at].b)
    ensures forall i :: first <= i <= last && i < |xs| ==> !Holds(xs[i], ip)
    ensures !((first == 0 && ip < xs[0].b && at > 0) || (last == |xs| && ip > xs[|xs| - 1].e))
  {
    Ends(xs);
    forall i | first <= i <= last && i < |xs| ensures !Holds(xs[i], ip) {
      if i < at {
        assert i < at - 1 ==> xs[i].e < xs[at - 1].b;
      } else {
        assert at < i ==> xs[at].e < xs[i].b;
      }
    }
  }

  /** Both loops of getRegionCode. high is one past the end for a whole list, and stepping below
      position 0 wraps; Beyond stands for a read outside the list. */
  method BinarySearch(xs: seq<Range>, first: nat, last: nat, ip: nat) returns (r: Search)
    requires Sorted(xs) && first < |xs| && first <= last <= |xs| < WORD / 2
    ensures r.Beyond? <==> (first == 0 && ip < xs[0].b) || (last == |xs| && ip > xs[|xs| - 1].e)
    ensures r.Hit? ==> first <= r.at <= last && r.at < |xs| && Holds(xs[r.at], ip)
    ensures r.Miss? ==> forall i :: first <= i <= last && i < |xs| ==> !Holds(xs[i], ip)
  {
    hide Sorted;
    var low, high := first, last;
    while low <= high
      invariant first <= low <= |xs| && low <= high + 1 && 0 <= high <= last
      invariant low == first || xs[low - 1].e < ip
      invariant high == last || (high + 1 < |xs| && ip < xs[high + 1].b)
      decreases high - low
    {
      var mid := (low + high) / 2;
      if mid >= |xs| {
        return Beyond;
      }
      if Holds(xs[mid], ip) {
        HitInside(xs, mid, ip);
        return Hit(mid);
      } else if ip < xs[mid].b {
        if mid == 0 {
          return Beyond;
        }
        high := mid - 1;
        if low <= high && ip > xs[high].e {
          GapIsMiss(xs, first, last, mid, ip);
          return Miss;
        }
      } else {
        low := mid + 1;
        if low <= high {
          if low >= |xs| {
            return Beyond;
          }
          if ip < xs[low].b {
            GapIsMiss(xs, first, last, low, ip);
            return Miss;
          }
        }
      }
    }
    GapIsMiss(xs, first, last, low, ip);
    return Miss;
  }

  /** IPBINFO and getRegionCode; Beyond reads outside one of the two lists. */
  datatype Answer = Code(code: int) | OutsideLists

  method RegionCode(xs: seq<Range>, blocks: seq<Range>, ip: nat) returns (r: Answer)
    requires Sorted(xs) && xs != [] && IsIndex(xs, blocks) && |xs| < WORD / 2
    ensures r == if xs[0].b <= ip <= xs[|xs| - 1].e then Code(Linear(xs, ip)) else OutsideLists
  {
    BlocksSorted(xs, blocks);
    var m := |blocks|;
    BlockBounds(|xs|, 0);
    BlockBounds(|xs|, m - 1);
    BlockBounds(|xs|, m);
    assert blocks[0].b == xs[0].b && blocks[m - 1].e == xs[|xs| - 1].e;
    var block := BinarySearch(blocks, 0, m, ip);
    match block {
      case Beyond => return OutsideLists;
      case Miss =>
        NoBlockNoRange(xs, blocks, ip);
        return Code(0);
      case Hit(k) =>
        var low := k * METASIZE;
        var high := if k == m - 1 then |xs| else low + METASIZE;
        BlockBounds(|xs|, k + 1);
        var at := BinarySearch(xs, low, high, ip);
        BlockHit(xs, k, ip);
        match at {
          case Beyond => return OutsideLists;
          case Miss =>
            LinearNone(xs, ip);
            return Code(0);
          case Hit(i) =>
            LinearAt(xs, ip, i);
            return Code(xs[i].code);
        }
    }
  }

  /** An address in no block is in no range. */
  lemma NoBlockNoRange(xs: seq<Range>, blocks: seq<Range>, ip: nat)
    requires Sorted(xs) && xs != [] && IsIndex(xs, blocks)
    requires forall k :: 0 <= k < |blocks| ==> !Holds(blocks[k], ip)
    ensures Linear(xs, ip) == 0
  {
    forall i | 0 <= i < |xs| ensures !Holds(xs[i], ip) {
      var k := i / METASIZE;
      BlockBounds(|xs|, k);
      InBlock(xs, k, i);
      assert !Holds(blocks[k], ip);
    }
    LinearNone(xs, ip);
  }

  /** A range lies within its block. */
  lemma InBlock(xs: seq<Range>, k: nat, i: nat)
    requires Sorted(xs) && i < |xs| && k == i / METASIZE
    ensures k * METASIZE < |xs| && BlockAt(xs, k).b <= xs[i].b && xs[i].e <= BlockAt(xs, k).e
  {
    var last := k * METASIZE + METASIZE - 1;
    var l := if last < |xs| then last else |xs| - 1;
    assert k * METASIZE <= i <= l;
    assert k * METASIZE < i ==> xs[k * METASIZE].e < xs[i].b;
    assert i < l ==> xs[i].e < xs[l].b;
  }

  /** Inside a block, ranges of other blocks are out of the question. */
  lemma BlockHit(xs: seq<Range>, k: nat, ip: nat)
    requires Sorted(xs) && k * METASIZE < |xs| && Holds(BlockAt(xs, k), ip)
    ensures forall i :: 0 <= i < |xs| && (i < k * METASIZE || i >= k * METASIZE + METASIZE) ==> !Holds(xs[i], ip)
  {
    var first, last := k * METASIZE, k * METASIZE + METASIZE - 1;
    forall i | 0 <= i < |xs| && (i < first || i > last) ensures !Holds(xs[i], ip) {
      if i < first {
        assert xs[i].e < xs[first].b;
      } else {
        assert xs[last].e < xs[i].b;
      }
    }
  }
}
