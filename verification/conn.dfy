/** Client connections as the monitoring endpoint lists them, the seven
    sort keys, and the `sort.Interface` adapters that order a connection
    list by one integer field each. */
module Conn {
  import opened Outcomes

  /** One client connection; only the fields the monitor shows or sorts by. */
  datatype ConnInfo = ConnInfo(
    cid: nat,
    ip: string,
    port: int,
    numSubs: nat,
    pending: int,
    inMsgs: int,
    outMsgs: int,
    inBytes: int,
    outBytes: int,
    lang: string,
    version: string)

  /** The seven orderings, one per adapter type. */
  datatype SortKey = ByCid | BySubs | ByPending | ByMsgsTo | ByMsgsFrom | ByBytesTo | ByBytesFrom

  /** The single field each adapter's `Less` compares. */
  function Field(c: ConnInfo, k: SortKey): int {
    match k
    case ByCid => c.cid
    case BySubs => c.numSubs
    case ByPending => c.pending
    case ByMsgsTo => c.outMsgs
    case ByMsgsFrom => c.inMsgs
    case ByBytesTo => c.outBytes
    case ByBytesFrom => c.inBytes
  }

  /** The name under which a key is selected on the command line and at the prompt. */
  function Name(k: SortKey): string {
    match k
    case ByCid => "cid"
    case BySubs => "subs"
    case ByPending => "pending"
    case ByMsgsTo => "msgs_to"
    case ByMsgsFrom => "msgs_from"
    case ByBytesTo => "bytes_to"
    case ByBytesFrom => "bytes_from"
  }

  /** The key a name selects, if any. */
  function KeyOfName(name: string): (r: Option<SortKey>)
    ensures r.Some? ==> Name(r.value) == name
    ensures (exists k :: Name(k) == name) ==> r.Some?
  {
    if name == "cid" then Some(ByCid)
    else if name == "subs" then Some(BySubs)
    else if name == "pending" then Some(ByPending)
    else if name == "msgs_to" then Some(ByMsgsTo)
    else if name == "msgs_from" then Some(ByMsgsFrom)
    else if name == "bytes_to" then Some(ByBytesTo)
    else if name == "bytes_from" then Some(ByBytesFrom)
    else None
  }

  lemma NameRoundTrip(k: SortKey)
    ensures KeyOfName(Name(k)) == Some(k)
  {
  }

  /** The exported `SortBy*` constants. There are six: no constant names
      the pending-bytes ordering, although its adapter exists. */
  function SortConstant(k: SortKey): (r: Option<string>)
    ensures r.Some? ==> r.value == Name(k)
    ensures r.None? <==> k == ByPending
  {
    match k
    case ByCid => Some("cid")
    case BySubs => Some("subs")
    case ByPending => None
    case ByMsgsTo => Some("msgs_to")
    case ByMsgsFrom => Some("msgs_from")
    case ByBytesTo => Some("bytes_to")
    case ByBytesFrom => Some("bytes_from")
  }

  /** `Len` of every adapter. */
  function Len(d: seq<ConnInfo>): nat {
    |d|
  }

  /** `Swap(i, j)` of every adapter: positions i and j trade places. */
  function Swap(d: seq<ConnInfo>, i: nat, j: nat): (r: seq<ConnInfo>)
    requires i < Len(d) && j < Len(d)
    ensures Len(r) == Len(d)
    ensures r[i] == d[j] && r[j] == d[i]
    ensures forall m :: 0 <= m < |d| && m != i && m != j ==> r[m] == d[m]
    ensures multiset(r) == multiset(d)
  {
    d[i := d[j]][j := d[i]]
  }

  /** `Less(i, j)` of the adapter for key k: the field at i is below the one at j. */
  function Less(d: seq<ConnInfo>, k: SortKey, i: nat, j: nat): (r: bool)
    requires i < Len(d) && j < Len(d)
    ensures r <==> Rank(d[i], k, false) < Rank(d[j], k, false)
    ensures r ==> Field(d[i], k) != Field(d[j], k)
  {
    Field(d[i], k) < Field(d[j], k)
  }

  /** `sort.Reverse` of the adapter: its `Less(i, j)` is the adapter's `Less(j, i)`. */
  function ReverseLess(d: seq<ConnInfo>, k: SortKey, i: nat, j: nat): (r: bool)
    requires i < Len(d) && j < Len(d)
    ensures r <==> Rank(d[i], k, true) < Rank(d[j], k, true)
    ensures r <==> Field(d[j], k) < Field(d[i], k)
  {
    Less(d, k, j, i)
  }

  /** The order `sort.Sort` is handed: the adapter itself, or its reverse. */
  function OrderLess(d: seq<ConnInfo>, k: SortKey, desc: bool, i: nat, j: nat): bool
    requires i < Len(d) && j < Len(d)
  {
    if desc then ReverseLess(d, k, i, j) else Less(d, k, i, j)
  }

  /** Every adapter's `Less`, and its reverse, is a strict weak order, the
      contract `sort.Sort` needs: irreflexive, transitive, and with
      "neither is less" transitive as well. */
  lemma LessIsStrictWeakOrder(d: seq<ConnInfo>, k: SortKey, desc: bool, i: nat, j: nat, m: nat)
    requires i < |d| && j < |d| && m < |d|
    ensures !OrderLess(d, k, desc, i, i)
    ensures OrderLess(d, k, desc, i, j) && OrderLess(d, k, desc, j, m) ==> OrderLess(d, k, desc, i, m)
    ensures OrderLess(d, k, desc, i, j) ==> !OrderLess(d, k, desc, j, i)
    ensures !OrderLess(d, k, desc, i, j) && !OrderLess(d, k, desc, j, i)
            && !OrderLess(d, k, desc, j, m) && !OrderLess(d, k, desc, m, j)
            ==> !OrderLess(d, k, desc, i, m) && !OrderLess(d, k, desc, m, i)
  {
  }

  /** Sorted by key k: ascending, or descending when desc. */
  predicate SortedBy(s: seq<ConnInfo>, k: SortKey, desc: bool) {
    forall i, j :: 0 <= i < j < |s| ==>
      if desc then Field(s[j], k) <= Field(s[i], k) else Field(s[i], k) <= Field(s[j], k)
  }

  /** The position of a connection under the order: descending order is
      ascending order of the negated field. */
  function Rank(c: ConnInfo, k: SortKey, desc: bool): int {
    if desc then -Field(c, k) else Field(c, k)
  }

  /** `sort.Sort` over the (possibly reversed) adapter, using only its `Less`
      and `Swap`. The result is a sorted permutation; which of several
      connections with equal keys comes first is left open, because Go's
      sort is not stable. */
  method Sort(d: seq<ConnInfo>, k: SortKey, desc: bool) returns (r: seq<ConnInfo>)
    ensures Len(r) == Len(d)
    ensures multiset(r) == multiset(d)
    ensures SortedBy(r, k, desc)
  {
    r := d;
    var i := 0;
    while i < Len(r)
      invariant 0 <= i <= |r| == |d|
      invariant multiset(r) == multiset(d)
      invariant forall a, b :: 0 <= a < b < i ==> Rank(r[a], k, desc) <= Rank(r[b], k, desc)
    {
      var j := i;
      while j > 0 && OrderLess(r, k, desc, j, j - 1)
        invariant 0 <= j <= i < |r| == |d|
        invariant multiset(r) == multiset(d)
        invariant forall a, b :: 0 <= a < b <= i && b != j ==> Rank(r[a], k, desc) <= Rank(r[b], k, desc)
      {
        r := Swap(r, j, j - 1);
        j := j - 1;
      }
      i := i + 1;
    }
  }

  /** Sorting puts an extreme connection first: the smallest key ascending,
      the largest descending. */
  lemma SortedHeadIsExtreme(s: seq<ConnInfo>, k: SortKey, desc: bool, c: ConnInfo)
    requires SortedBy(s, k, desc) && c in s
    ensures if desc then Field(c, k) <= Field(s[0], k) else Field(s[0], k) <= Field(c, k)
  {
    var i :| 0 <= i < |s| && s[i] == c;
  }
}
