/** Flattening call trees (adapters/rpc/trace.go, adapters/rpc/hex.go). */
module Trace {
  import opened Prelude
  import opened Digits
  import opened Address
  import opened Sorting

  /** The fields of one frame as the node sent them. */
  datatype RawCall = RawCall(kind: string, from: string, to: string, value: string, gasUsed: string, error: string)

  /** rawCallFrame: a call and the calls it made. */
  datatype Frame = Frame(call: RawCall, calls: seq<Frame>)

  datatype InternalTx = InternalTx(from: Address, to: Address, value: int, gasUsed: Uint64, callType: string, error: string)

  const ZERO_ADDRESS: Address := [0, 0, 0, 0, 0, 0, 0, 0, 0, 0, 0, 0, 0, 0, 0, 0, 0, 0, 0, 0]

  function AddressOrZero(hash: Hasher, s: string): Address {
    match Parse(hash, s)
    case Ok(a) => a
    case Err(_) => ZERO_ADDRESS
  }

  /** parseHexUint64, with 0 for an error. */
  function QuantityOrZero(s: string): Uint64 {
    if !HasHexPrefix(s) || |s| == 2 then 0
    else
      match ParseUint64Hex(s[2..])
      case Some(n) => n
      case None => 0
  }

  /** parseHexBigInt, with 0 for an error or an absent value. */
  function ValueOrZero(s: string): int {
    if !HasHexPrefix(s) || |s| == 2 then 0
    else
      match ParseInt(s[2..], 16)
      case Some(n) => n
      case None => 0
  }

  function Decoded(hash: Hasher, c: RawCall): InternalTx {
    InternalTx(AddressOrZero(hash, c.from), AddressOrZero(hash, c.to), ValueOrZero(c.value), QuantityOrZero(c.gasUsed), c.kind, c.error)
  }

  // ---- the two loops ------------------------------------------------------

  function Preorder(hash: Hasher, f: Frame): seq<InternalTx> {
    [Decoded(hash, f.call)] + PreorderAll(hash, f.calls)
  }

  function PreorderAll(hash: Hasher, fs: seq<Frame>): seq<InternalTx> {
    if fs == [] then [] else PreorderAll(hash, fs[..|fs| - 1]) + Preorder(hash, fs[|fs| - 1])
  }

  /** flattenCallFrame: appends to the accumulator and threads it through the children. */
  method FlattenCallFrame(hash: Hasher, f: Frame, acc: seq<InternalTx>) returns (out: seq<InternalTx>)
    ensures out == acc + Preorder(hash, f)
    decreases f
  {
    out := acc + [Decoded(hash, f.call)];
    for i := 0 to |f.calls|
      invariant out == acc + [Decoded(hash, f.call)] + PreorderAll(hash, f.calls[..i])
    {
      assert f.calls[..i + 1][..i] == f.calls[..i];
      out := FlattenCallFrame(hash, f.calls[i], out);
    }
    assert f.calls[..|f.calls|] == f.calls;
  }

  /** The concatenation loop of FetchInternalTxByBlock: one tree per transaction. */
  method FlattenBlock(hash: Hasher, items: seq<Frame>) returns (traces: seq<InternalTx>)
    ensures traces == PreorderAll(hash, items)
  {
    traces := [];
    for i := 0 to |items|
      invariant traces == PreorderAll(hash, items[..i])
    {
      assert items[..i + 1][..i] == items[..i];
      traces := FlattenCallFrame(hash, items[i], traces);
    }
    assert items[..|items|] == items;
  }

  // ---- frames by their place ----------------------------------------------

  /** A place in a block: the transaction, then the child taken at each level. */
  type Place = seq<int>

  predicate IsPlace(fs: seq<Frame>, p: Place)
    decreases |p|
  {
    p != [] && 0 <= p[0] < |fs| && (|p| == 1 || IsPlace(fs[p[0]].calls, p[1..]))
  }

  function FrameAt(fs: seq<Frame>, p: Place): Frame
    requires IsPlace(fs, p)
    decreases |p|
  {
    if |p| == 1 then fs[p[0]] else FrameAt(fs[p[0]].calls, p[1..])
  }

  function Below(i: int, ps: seq<Place>): seq<Place> {
    seq(|ps|, k requires 0 <= k < |ps| => [i] + ps[k])
  }

  /** Every place of a forest, in the order of execution. */
  function Places(fs: seq<Frame>): seq<Place> {
    if fs == [] then []
    else
      var n := |fs| - 1;
      Places(fs[..n]) + [[n]] + Below(n, Places(fs[n].calls))
  }

  function PlaceKey(p: Place): seq<int> { p }

  lemma PlaceInPrefix(fs: seq<Frame>, n: nat, p: Place)
    requires n <= |fs|
    ensures IsPlace(fs[..n], p) <==> IsPlace(fs, p) && p[0] < n
  {
  }

  lemma SameFrame(fs: seq<Frame>, n: nat, p: Place)
    requires n <= |fs| && IsPlace(fs[..n], p)
    ensures IsPlace(fs, p) && FrameAt(fs, p) == FrameAt(fs[..n], p)
  {
  }

  ghost predicate ListsPlaces(fs: seq<Frame>) { forall p :: p in Places(fs) <==> IsPlace(fs, p) }

  /** Places lists the places of a forest, each once, in dictionary order. */
  lemma {:induction false} PlacesComplete(fs: seq<Frame>)
    ensures ListsPlaces(fs) && StrictlyAscending(PlaceKey, Places(fs))
    decreases fs
  {
    if fs != [] {
      var n := |fs| - 1;
      PlacesComplete(fs[..n]);
      PlacesComplete(fs[n].calls);
      forall p ensures p in Places(fs) <==> IsPlace(fs, p) { PlacesMember(fs, p); }
      PlacesAscend(fs);
    }
  }

  lemma PlacesMember(fs: seq<Frame>, p: Place)
    requires fs != []
    requires ListsPlaces(fs[..|fs| - 1]) && ListsPlaces(fs[|fs| - 1].calls)
    ensures p in Places(fs) <==> IsPlace(fs, p)
  {
    var n := |fs| - 1;
    PlaceInPrefix(fs, n, p);
    PlacesBelow(n, fs[n].calls, p);
    assert p in [[n]] <==> p == [n];
    assert p in Places(fs) <==> p in Places(fs[..n]) || p in [[n]] || p in Below(n, Places(fs[n].calls));
    if |p| == 1 && p[0] == n { assert p == [n]; }
  }

  /** The places under child n are those of its calls, one level down. */
  lemma PlacesBelow(n: nat, calls: seq<Frame>, p: Place)
    requires ListsPlaces(calls)
    ensures p in Below(n, Places(calls)) <==> |p| > 1 && p[0] == n && IsPlace(calls, p[1..])
  {
    hide Places, IsPlace;
    var inner := Places(calls);
    if p in Below(n, inner) {
      var k :| 0 <= k < |inner| && Below(n, inner)[k] == p;
      assert p[1..] == inner[k] && inner[k] in inner;
      assert IsPlace(calls, inner[k]) && inner[k] != [] by { NonEmptyPlace(calls, inner[k]); }
    }
    if |p| > 1 && p[0] == n && IsPlace(calls, p[1..]) {
      assert p[1..] in inner;
      var k :| 0 <= k < |inner| && inner[k] == p[1..];
      assert Below(n, inner)[k] == [n] + p[1..] == p;
    }
  }

  lemma NonEmptyPlace(fs: seq<Frame>, p: Place)
    ensures IsPlace(fs, p) ==> p != []
  {
  }

  lemma PlacesAscend(fs: seq<Frame>)
    requires fs != []
    requires ListsPlaces(fs[..|fs| - 1]) && ListsPlaces(fs[|fs| - 1].calls)
    requires StrictlyAscending(PlaceKey, Places(fs[..|fs| - 1])) && StrictlyAscending(PlaceKey, Places(fs[|fs| - 1].calls))
    ensures StrictlyAscending(PlaceKey, Places(fs))
  {
    var n := |fs| - 1;
    var before, inner := Places(fs[..n]), Places(fs[n].calls);
    var all := Places(fs);
    assert all == before + [[n]] + Below(n, inner);
    forall i, j | 0 <= i < j < |all| ensures LexLess(all[i], all[j]) {
      if i < |before| {
        assert all[i] == before[i] && before[i] in before;
        if j < |before| {
          assert LexLess(PlaceKey(before[i]), PlaceKey(before[j]));
        } else {
          assert all[j][0] == n && all[i][0] < n;
        }
      } else {
        var l := j - |before| - 1;
        assert all[j] == [n] + inner[l] && all[j][1..] == inner[l];
        assert inner[l] in inner;
        if i == |before| {
          assert all[i] == [n] && all[i][1..] == [];
        } else {
          var k := i - |before| - 1;
          assert all[i] == [n] + inner[k] && all[i][1..] == inner[k];
          assert LexLess(PlaceKey(inner[k]), PlaceKey(inner[l]));
        }
      }
    }
  }

  /** Trace entry k is the frame at place k. */
  ghost predicate MatchAt(hash: Hasher, fs: seq<Frame>, k: int) {
    && 0 <= k < |Places(fs)| == |PreorderAll(hash, fs)|
    && IsPlace(fs, Places(fs)[k]) && PreorderAll(hash, fs)[k] == Decoded(hash, FrameAt(fs, Places(fs)[k]).call)
  }

  lemma {:induction false} PlacesMatch(hash: Hasher, fs: seq<Frame>)
    ensures |PreorderAll(hash, fs)| == |Places(fs)|
    ensures forall k :: 0 <= k < |Places(fs)| ==> MatchAt(hash, fs, k)
    decreases fs
  {
    hide Decoded, MatchAt;
    if fs != [] {
      var n := |fs| - 1;
      PlacesMatch(hash, fs[..n]);
      PlacesMatch(hash, fs[n].calls);
      forall k | 0 <= k < |Places(fs)| ensures MatchAt(hash, fs, k) {
        var m := |Places(fs[..n])|;
        if k < m { MatchBefore(hash, fs, k); } else if k > m { MatchInside(hash, fs, k); } else { MatchLast(hash, fs); }
      }
    }
  }

  lemma MatchBefore(hash: Hasher, fs: seq<Frame>, k: nat)
    requires fs != [] && |PreorderAll(hash, fs)| == |Places(fs)| && MatchAt(hash, fs[..|fs| - 1], k)
    ensures MatchAt(hash, fs, k)
  {
    hide Decoded;
    SameFrame(fs, |fs| - 1, Places(fs)[k]);
  }

  lemma MatchLast(hash: Hasher, fs: seq<Frame>)
    requires fs != [] && |PreorderAll(hash, fs)| == |Places(fs)|
    requires |PreorderAll(hash, fs[..|fs| - 1])| == |Places(fs[..|fs| - 1])|
    ensures MatchAt(hash, fs, |Places(fs[..|fs| - 1])|)
  {
    hide Decoded;
    var n := |fs| - 1;
    var m := |Places(fs[..n])|;
    assert Places(fs)[m] == [n];
    assert IsPlace(fs, [n]) && FrameAt(fs, [n]) == fs[n];
    assert PreorderAll(hash, fs)[m] == Preorder(hash, fs[n])[0];
  }

  lemma PlaceInside(fs: seq<Frame>, k: nat)
    requires fs != [] && |Places(fs[..|fs| - 1])| < k < |Places(fs)|
    ensures var n := |fs| - 1; var inner, l := Places(fs[n].calls), k - |Places(fs[..n])| - 1;
      0 <= l < |inner| && Places(fs)[k] == [n] + inner[l]
  {
    hide LexLess;
  }

  lemma EntryInside(hash: Hasher, fs: seq<Frame>, l: nat)
    requires fs != [] && l < |PreorderAll(hash, fs[|fs| - 1].calls)|
    ensures var m := |PreorderAll(hash, fs[..|fs| - 1])|;
      m + 1 + l < |PreorderAll(hash, fs)| && PreorderAll(hash, fs)[m + 1 + l] == PreorderAll(hash, fs[|fs| - 1].calls)[l]
  {
    hide Decoded;
  }

  lemma MatchInside(hash: Hasher, fs: seq<Frame>, k: nat)
    requires fs != [] && |PreorderAll(hash, fs)| == |Places(fs)| && |PreorderAll(hash, fs[..|fs| - 1])| == |Places(fs[..|fs| - 1])|
    requires |Places(fs[..|fs| - 1])| < k < |Places(fs)|
    requires MatchAt(hash, fs[|fs| - 1].calls, k - |Places(fs[..|fs| - 1])| - 1)
    ensures MatchAt(hash, fs, k)
  {
    hide Decoded, Places, PreorderAll;
    var n := |fs| - 1;
    var l := k - |Places(fs[..n])| - 1;
    PlaceInside(fs, k);
    EntryInside(hash, fs, l);
    assert ([n] + Places(fs[n].calls)[l])[1..] == Places(fs[n].calls)[l];
  }

  /** A block's flat trace is its frames, each decoded once, in dictionary order of their
      places: no frame is lost, repeated, or moved to another transaction, a call comes
      before the calls it made, and siblings keep their order. */
  lemma TraceIsPreorder(hash: Hasher, items: seq<Frame>, traces: seq<InternalTx>)
    requires traces == PreorderAll(hash, items)
    ensures |traces| == |Places(items)| && StrictlyAscending(PlaceKey, Places(items))
    ensures forall p :: p in Places(items) <==> IsPlace(items, p)
    ensures forall k :: 0 <= k < |traces| ==>
      IsPlace(items, Places(items)[k]) && traces[k] == Decoded(hash, FrameAt(items, Places(items)[k]).call)
  {
    PlacesComplete(items);
    PlacesMatch(hash, items);
    forall k | 0 <= k < |traces|
      ensures IsPlace(items, Places(items)[k]) && traces[k] == Decoded(hash, FrameAt(items, Places(items)[k]).call)
    {
      assert MatchAt(hash, items, k);
    }
  }

  // ---- what an entry keeps of its frame -------------------------------------

  /** An address field: the address it spells, or the zero address if it spells none. */
  ghost predicate ReadsAddress(hash: Hasher, s: string, r: Address) {
    && (forall a :: ReadsAs(hash, s, a) ==> r == a)
    && ((forall a :: !ReadsAs(hash, s, a)) ==> forall i :: 0 <= i < 20 ==> r[i] == 0)
  }

  /** A 64-bit field: n when it spells n behind a prefix, or 0. */
  ghost predicate ReadsUint64(s: string, r: Uint64) {
    forall n: nat :: n > 0 ==> (r == n <==> n < TWO_64 && HasHexPrefix(s) && IsNumeral(s[2..], 16, n))
  }

  /** A value field: a numeral of any size, with or without a sign, or 0. */
  ghost predicate ReadsValue(s: string, r: int) {
    forall n: int :: n != 0 ==> (r == n <==> HasHexPrefix(s) && IsSigned(s[2..], 16, n))
  }

  lemma AddressRead(hash: Hasher, s: string)
    ensures ReadsAddress(hash, s, AddressOrZero(hash, s))
  {
    hide Parse, ReadsAs;
    forall a ensures Parse(hash, s) == Ok(a) <==> ReadsAs(hash, s, a) { ParsesExactly(hash, s, a); }
  }

  lemma Uint64Read(s: string)
    ensures ReadsUint64(s, QuantityOrZero(s))
  {
    hide IsNumeral;
    if HasHexPrefix(s) {
      forall n: nat ensures ParseNat(s[2..], 16) == Some(n) <==> IsNumeral(s[2..], 16, n) { NumeralSpellings(s[2..], 16, n); }
    }
  }

  lemma ValueRead(s: string)
    ensures ReadsValue(s, ValueOrZero(s))
  {
    hide IsSigned, ParseInt;
    if HasHexPrefix(s) {
      if |s| == 2 {
        assert s[2..] == "";
        NoNumeral();
      }
      forall n: int ensures ParseInt(s[2..], 16) == Some(n) <==> IsSigned(s[2..], 16, n) { IntSpellings(s[2..], 16, n); }
    }
  }

  lemma NoNumeral()
    ensures ParseInt("", 16) == None
  {
  }

  /** Entry k keeps every field of the frame at the k-th place under its own name, read
      apart from the others: one that does not parse is zero and the rest are unaffected. */
  lemma EntryKeepsFields(hash: Hasher, items: seq<Frame>, traces: seq<InternalTx>, k: nat)
    requires traces == PreorderAll(hash, items) && k < |Places(items)|
    ensures IsPlace(items, Places(items)[k]) && |traces| == |Places(items)|
    ensures var c, t := FrameAt(items, Places(items)[k]).call, traces[k];
      && ReadsAddress(hash, c.from, t.from) && ReadsAddress(hash, c.to, t.to)
      && ReadsValue(c.value, t.value) && ReadsUint64(c.gasUsed, t.gasUsed)
      && t.callType == c.kind && t.error == c.error
  {
    hide ReadsAddress, ReadsValue, ReadsUint64, PreorderAll, Places;
    TraceIsPreorder(hash, items, traces);
    var c := FrameAt(items, Places(items)[k]).call;
    AddressRead(hash, c.from);
    AddressRead(hash, c.to);
    ValueRead(c.value);
    Uint64Read(c.gasUsed);
  }

  /** A call written in the node's canonical spelling is read back as it was. */
  lemma CallReadsBack(hash: Hasher, items: seq<Frame>, traces: seq<InternalTx>, k: nat,
                      kind: string, a: Address, b: Address, v: nat, g: Uint64, error: string)
    requires traces == PreorderAll(hash, items) && k < |Places(items)| && IsPlace(items, Places(items)[k])
    requires FrameAt(items, Places(items)[k]).call ==
      RawCall(kind, Hex(hash, a), Hex(hash, b), "0x" + PrintNat(v, 16), "0x" + PrintNat(g, 16), error)
    ensures |traces| == |Places(items)| && traces[k] == InternalTx(a, b, v, g, kind, error)
  {
    hide Parse, Hex, PreorderAll, Places, PrintNat, ParseNat;
    TraceIsPreorder(hash, items, traces);
    ParsePrinted(hash, a);
    ParsePrinted(hash, b);
    NumeralReadsBack(v);
    NumeralReadsBack(g);
  }

  lemma NumeralReadsBack(n: nat)
    ensures ValueOrZero("0x" + PrintNat(n, 16)) == n
    ensures n < TWO_64 ==> QuantityOrZero("0x" + PrintNat(n, 16)) == n
  {
    hide PrintNat, ParseNat;
    ParsePrintNat(n, 16);
    var p := PrintNat(n, 16);
    assert ("0x" + p)[2..] == p && p[0] in p;
  }

  /** Together with the order, the places of a forest determine their listing. */
  lemma ListingDetermined(items: seq<Frame>, listing: seq<Place>)
    requires StrictlyAscending(PlaceKey, listing) && forall p :: p in listing <==> IsPlace(items, p)
    ensures listing == Places(items)
  {
    PlacesComplete(items);
    StrictUnique(PlaceKey, listing, Places(items));
  }
}
