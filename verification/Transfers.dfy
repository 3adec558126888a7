/** The merged page of a wallet's most recent transfers in both directions. */
module Transfers {
  import opened Sorting
  import opened PipelineSpec
  import opened Texts
  import Balance
  import MarketKey

  datatype Transfer = Transfer(hash: string, from: string, to: string, asset: string, value: string, blockNum: string,
                               category: string)

  const UINT64_MAX: int := 0xFFFF_FFFF_FFFF_FFFF

  predicate IsHex(s: string) {
    s != "" && forall i | 0 <= i < |s| :: Balance.DigitIn36(s[i]) < 16
  }

  /** The number of a hex block text; a text that is none, or no 64-bit number, counts as zero. */
  function BlockNumValue(s: string): (n: nat)
    ensures n <= UINT64_MAX
  {
    var digits := if "0x" <= s then s[2..] else s;
    if IsHex(digits) && Balance.RunValue(digits, 16) <= UINT64_MAX then Balance.RunValue(digits, 16) else 0
  }

  function Block(t: Transfer): nat {
    BlockNumValue(t.blockNum)
  }

  /** What makes two listed transfers the same. */
  function Identity(t: Transfer): string {
    t.hash + "|" + t.from + "|" + t.to + "|" + t.asset + "|" + t.value
  }

  /** No text of the transfer holds the mark that joins them. */
  predicate IsPlain(t: Transfer) {
    Lacks(t.hash, '|') && Lacks(t.from, '|') && Lacks(t.to, '|') && Lacks(t.asset, '|') && Lacks(t.value, '|')
  }

  /** Identity is agreement in hash, both addresses, asset and value. */
  lemma IdentityIsExact(a: Transfer, b: Transfer)
    requires IsPlain(a) && IsPlain(b)
    ensures Identity(a) == Identity(b) <==>
              a.hash == b.hash && a.from == b.from && a.to == b.to && a.asset == b.asset && a.value == b.value
  {
    if Identity(a) == Identity(b) {
      var a4, b4 := a.asset + ['|'] + a.value, b.asset + ['|'] + b.value;
      var a3, b3 := a.to + ['|'] + a4, b.to + ['|'] + b4;
      var a2, b2 := a.from + ['|'] + a3, b.from + ['|'] + b3;
      assert Identity(a) == a.hash + ['|'] + a2 && Identity(b) == b.hash + ['|'] + b2;
      hide Identity;
      NextPart(a.hash, a2, b.hash, b2);
      NextPart(a.from, a3, b.from, b3);
      NextPart(a.to, a4, b.to, b4);
      NextPart(a.asset, a.value, b.asset, b.value);
    }
  }

  lemma NextPart(a: string, s: string, b: string, t: string)
    requires Lacks(a, '|') && Lacks(b, '|') && a + ['|'] + s == b + ['|'] + t
    ensures a == b && s == t
  {
    LackingIsApart(a, b, '|');
    FirstPart(a, s, b, t, '|');
  }

  /** A mark inside a text may make two different transfers one. */
  lemma CollidingTransfers(a: Transfer, b: Transfer)
    requires a.hash == "a|b" && a.from == "c" && b.hash == "a" && b.from == "b|c"
    requires a.to == b.to && a.asset == b.asset && a.value == b.value
    ensures Identity(a) == Identity(b)
  {
    assert "a|b" + "|" + "c" == "a" + "|" + "b|c";
  }

  ghost function Identities(s: seq<Transfer>): set<string> {
    set t | t in s :: Identity(t)
  }

  /** Keeps the first transfer of each identity. */
  function Dedupe(s: seq<Transfer>): seq<Transfer> {
    if s == [] then [] else
      var front, last := Dedupe(s[..|s| - 1]), s[|s| - 1];
      if exists i :: 0 <= i < |front| && Identity(front[i]) == Identity(last) then front else front + [last]
  }

  method DedupeTransfers(input: seq<Transfer>) returns (out: seq<Transfer>)
    ensures out == Dedupe(input)
  {
    hide Identity;
    var seen: set<string> := {};
    out := [];
    for i := 0 to |input|
      invariant out == Dedupe(input[..i])
      invariant forall x :: x in seen <==> exists k :: 0 <= k < |out| && Identity(out[k]) == x
    {
      var t := input[i];
      assert input[..i + 1][..i] == input[..i];
      if Identity(t) in seen {
        continue;
      }
      seen := seen + {Identity(t)};
      ghost var before := out;
      out := out + [t];
      assert Identity(out[|before|]) == Identity(t);
      assert forall k | 0 <= k < |before| :: out[k] == before[k];
    }
    assert input[..|input|] == input;
  }

  /** The transfers agree in hash, both addresses, asset and value. */
  predicate SameTransfer(a: Transfer, b: Transfer) {
    a.hash == b.hash && a.from == b.from && a.to == b.to && a.asset == b.asset && a.value == b.value
  }

  /** A transfer is kept exactly once, and if nothing listed before it is the same, it is itself
      kept. */
  lemma KeptOnce(s: seq<Transfer>, i: nat)
    requires i < |s| && forall t | t in s :: IsPlain(t)
    ensures exists k :: 0 <= k < |Dedupe(s)| && SameTransfer(Dedupe(s)[k], s[i])
    ensures (forall j | 0 <= j < i :: !SameTransfer(s[j], s[i])) ==> s[i] in Dedupe(s)
    ensures forall j, k | 0 <= j < k < |Dedupe(s)| :: !SameTransfer(Dedupe(s)[j], Dedupe(s)[k])
  {
    DedupeIs(s);
    hide Identity, IsPlain, Dedupe, SameTransfer;
    var kept := Dedupe(s);
    assert forall k | 0 <= k < |kept| :: kept[k] in kept && IsPlain(kept[k]);
    forall a, b | a in s && b in s
      ensures SameTransfer(a, b) <==> Identity(a) == Identity(b)
    {
      SameIsIdentity(a, b);
    }
    assert s[i] in s && Identity(s[i]) in Identities(kept);
    var t :| t in kept && Identity(t) == Identity(s[i]);
    var k :| 0 <= k < |kept| && kept[k] == t;
    assert SameTransfer(kept[k], s[i]);
    if forall j | 0 <= j < i :: !SameTransfer(s[j], s[i]) {
      assert forall j | 0 <= j < i :: s[j] in s;
      FirstIsKept(s, i);
    }
  }

  lemma SameIsIdentity(a: Transfer, b: Transfer)
    requires IsPlain(a) && IsPlain(b)
    ensures SameTransfer(a, b) <==> Identity(a) == Identity(b)
  {
    IdentityIsExact(a, b);
    hide Identity;
  }

  lemma {:induction false} FirstIsKept(s: seq<Transfer>, i: nat)
    requires i < |s| && forall j | 0 <= j < i :: Identity(s[j]) != Identity(s[i])
    ensures s[i] in Dedupe(s)
  {
    hide Identity;
    var front := s[..|s| - 1];
    if i < |front| {
      FirstIsKept(front, i);
    } else {
      DedupeIs(front);
      var kept := Dedupe(front);
      forall k | 0 <= k < |kept|
        ensures Identity(kept[k]) != Identity(s[i])
      {
        assert kept[k] in front;
        var j :| 0 <= j < |front| && front[j] == kept[k];
        assert s[j] == kept[k];
      }
    }
  }

  /** Newer blocks first. */
  predicate Newer(a: Transfer, b: Transfer) {
    Block(a) > Block(b)
  }

  /** The page of two listings: merged, deduplicated, newest first, cut to the limit. */
  function MergedPage(outgoing: seq<Transfer>, incoming: seq<Transfer>, limit: int): seq<Transfer> {
    var merged := Sort(Newer, Dedupe(outgoing + incoming));
    if limit > 0 && |merged| > limit then merged[..limit] else merged
  }

  method GetTransfers(outgoing: Reply<seq<Transfer>>, incoming: Reply<seq<Transfer>>, limit: int)
    returns (page: Reply<seq<Transfer>>)
    ensures page == if outgoing.Answer? && incoming.Answer? then
              Answer(MergedPage(outgoing.value, incoming.value, limit)) else Failed
  {
    if outgoing.Failed? {
      return Failed;
    }
    if incoming.Failed? {
      return Failed;
    }
    var deduped := DedupeTransfers(outgoing.value + incoming.value);
    var merged := Sort(Newer, deduped);
    if limit > 0 && |merged| > limit {
      merged := merged[..limit];
    }
    return Answer(merged);
  }

  ghost predicate DistinctIdentities(s: seq<Transfer>) {
    forall i, j | 0 <= i < j < |s| :: Identity(s[i]) != Identity(s[j])
  }

  /** The page lists the `limit` most recent transfers of a world: no identity twice, and
      anything left out is no newer than everything listed, and left out only for lack of room. */
  ghost predicate MostRecent(page: seq<Transfer>, world: iset<Transfer>, limit: nat) {
    && |page| <= limit && DistinctIdentities(page) && (forall t | t in page :: t in world)
    && forall t | t in world && Identity(t) !in Identities(page) ::
         |page| == limit && forall x | x in page :: Block(x) >= Block(t)
  }

  /** Transfers of one identity are in one block. */
  ghost predicate IdentityFixesBlock(world: iset<Transfer>) {
    forall a, b | a in world && b in world && Identity(a) == Identity(b) :: Block(a) == Block(b)
  }

  lemma {:induction false} DedupeIs(s: seq<Transfer>)
    ensures DistinctIdentities(Dedupe(s)) && Identities(Dedupe(s)) == Identities(s) && forall t | t in Dedupe(s) ::
              t in s
  {
    hide Identity;
    if s != [] {
      var front, last := s[..|s| - 1], s[|s| - 1];
      DedupeIs(front);
      assert s == front + [last];
      var d := Dedupe(front);
      if exists i :: 0 <= i < |d| && Identity(d[i]) == Identity(last) {
        var i :| 0 <= i < |d| && Identity(d[i]) == Identity(last);
        assert d[i] in d;
        assert Identity(last) in Identities(d);
      } else {
        assert forall t | t in d + [last] :: t in d || t == last;
        assert Identities(d + [last]) == Identities(d) + {Identity(last)};
      }
      assert Identities(s) == Identities(front) + {Identity(last)};
    }
  }

  lemma NewerIsWeakOrder()
    ensures WeakOrder(Newer)
  {
    hide Block;
  }

  lemma {:induction false} DistinctCount(s: seq<Transfer>)
    ensures |Identities(s)| <= |s|
    ensures DistinctIdentities(s) ==> |Identities(s)| == |s|
  {
    hide Identity;
    if s != [] {
      var front, last := s[..|s| - 1], s[|s| - 1];
      DistinctCount(front);
      assert s == front + [last];
      assert Identities(s) == Identities(front) + {Identity(last)};
      if DistinctIdentities(s) {
        forall t | t in front
          ensures Identity(t) != Identity(last)
        {
          var k :| 0 <= k < |front| && front[k] == t;
          assert s[k] == t;
        }
      }
    }
  }

  /** Sorting by block keeps identities distinct and the same. */
  lemma SortedIs(s: seq<Transfer>)
    requires DistinctIdentities(s)
    ensures var m := Sort(Newer, s);
            && |m| == |s| && DistinctIdentities(m) && Identities(m) == Identities(s)
            && (forall t :: t in m <==> t in s) && Ordered(Newer, m)
  {
    NewerIsWeakOrder();
    SortMembers(Newer, s);
    SortOrders(Newer, s);
    hide Newer, Sort, Identity;
    var m := Sort(Newer, s);
    assert |m| == |multiset(m)| == |multiset(s)| == |s|;
    DistinctCount(s);
    DistinctCount(m);
    assert Identities(m) == Identities(s);
    FullCountIsDistinct(m);
  }

  lemma {:induction false} FullCountIsDistinct(s: seq<Transfer>)
    requires |Identities(s)| == |s|
    ensures DistinctIdentities(s)
  {
    hide Identity;
    if s != [] {
      var front, last := s[..|s| - 1], s[|s| - 1];
      assert s == front + [last];
      assert Identities(s) == Identities(front) + {Identity(last)};
      DistinctCount(front);
      FullCountIsDistinct(front);
      forall i, j | 0 <= i < j < |s|
        ensures Identity(s[i]) != Identity(s[j])
      {
        if j == |front| {
          assert front[i] in front;
        } else {
          assert s[i] == front[i] && s[j] == front[j];
        }
      }
    }
  }

  /** If one direction lists its `limit` most recent transfers and the other likewise, the merged
      page lists the `limit` most recent of both together, newest block first. */
  lemma MergedIsMostRecent(outgoing: seq<Transfer>, incoming: seq<Transfer>, outWorld: iset<Transfer>,
                           inWorld: iset<Transfer>, limit: nat)
    requires limit > 0 && IdentityFixesBlock(outWorld + inWorld)
    requires MostRecent(outgoing, outWorld, limit) && MostRecent(incoming, inWorld, limit)
    ensures var page := MergedPage(outgoing, incoming, limit);
            MostRecent(page, outWorld + inWorld, limit) && Ordered(Newer, page)
  {
    hide Identity, Block;
    var both := outgoing + incoming;
    DedupeIs(both);
    SortedIs(Dedupe(both));
    var merged := Sort(Newer, Dedupe(both));
    hide Sort, Dedupe;
    var page := MergedPage(outgoing, incoming, limit);
    assert page == if |merged| > limit then merged[..limit] else merged;
    var world := outWorld + inWorld;
    assert forall t | t in page :: t in merged;
    forall t | t in world && Identity(t) !in Identities(page)
      ensures |page| == limit && forall x | x in page :: Block(x) >= Block(t)
    {
      if Identity(t) in Identities(merged) {
        CutOff(merged, limit, world, t);
      } else if t in outWorld {
        ListingFills(outgoing, outWorld, merged, limit, world, t);
      } else {
        ListingFills(incoming, inWorld, merged, limit, world, t);
      }
    }
  }

  lemma CutOff(merged: seq<Transfer>, limit: nat, world: iset<Transfer>, t: Transfer)
    requires limit > 0 && Ordered(Newer, merged) && IdentityFixesBlock(world) && t in world
    requires forall x | x in merged :: x in world
    requires Identity(t) in Identities(merged)
    requires Identity(t) !in Identities(if |merged| > limit then merged[..limit] else merged)
    ensures |merged| > limit && forall x | x in merged[..limit] :: Block(x) >= Block(t)
  {
    hide Identity, Block;
    var u :| u in merged && Identity(u) == Identity(t);
    var k :| 0 <= k < |merged| && merged[k] == u;
    var page := if |merged| > limit then merged[..limit] else merged;
    assert forall i | 0 <= i < |page| :: page[i] == merged[i] && page[i] in page;
    assert |merged| > limit && k >= limit;
    assert Block(u) == Block(t);
    forall x | x in merged[..limit]
      ensures Block(x) >= Block(t)
    {
      var i :| 0 <= i < limit && merged[..limit][i] == x;
      assert !Newer(merged[k], merged[i]);
    }
  }

  /** A full listing whose transfers are all at least as new as `t` leaves no room for `t`. */
  lemma ListingFills(listing: seq<Transfer>, listed: iset<Transfer>, merged: seq<Transfer>, limit: nat,
                     world: iset<Transfer>, t: Transfer)
    requires limit > 0 && MostRecent(listing, listed, limit) && listed <= world && IdentityFixesBlock(world)
    requires Ordered(Newer, merged) && DistinctIdentities(merged) && forall x | x in merged :: x in world
    requires Identities(listing) <= Identities(merged) && t in listed && Identity(t) !in Identities(merged)
    ensures |merged| >= limit && forall x | x in merged[..limit] :: Block(x) >= Block(t)
  {
    hide Identity, Block;
    DistinctCount(listing);
    DistinctCount(merged);
    SubsetSize(Identities(listing), Identities(merged));
    assert |listing| == limit && |merged| >= limit;
    LastIsNewEnough(listing, merged, limit, world, t);
    forall x | x in merged[..limit]
      ensures Block(x) >= Block(t)
    {
      var i :| 0 <= i < limit && merged[..limit][i] == x;
      if i < limit - 1 {
        assert !Newer(merged[limit - 1], merged[i]);
      }
    }
  }

  /** Pigeonhole: `limit` distinct transfers at least as new as `t` cannot all come before a
      position where an older one stands. */
  lemma LastIsNewEnough(listing: seq<Transfer>, merged: seq<Transfer>, limit: nat, world: iset<Transfer>, t: Transfer)
    requires 0 < limit <= |merged| && |Identities(listing)| == limit && IdentityFixesBlock(world)
    requires Ordered(Newer, merged) && (forall x | x in merged :: x in world) && (forall x | x in listing :: x in world)
    requires Identities(listing) <= Identities(merged) && forall x | x in listing :: Block(x) >= Block(t)
    ensures Block(merged[limit - 1]) >= Block(t)
  {
    hide Identity, Block;
    if Block(merged[limit - 1]) < Block(t) {
      var early := merged[..limit - 1];
      forall id | id in Identities(listing)
        ensures id in Identities(early)
      {
        var x :| x in listing && Identity(x) == id;
        var y :| y in merged && Identity(y) == id;
        var k :| 0 <= k < |merged| && merged[k] == y;
        assert k >= limit ==> !Newer(merged[k], merged[limit - 1]);
        assert early[k] == y;
      }
      DistinctCount(early);
      SubsetSize(Identities(listing), Identities(early));
      assert false;
    }
  }

  lemma {:induction false} SubsetSize<T>(a: set<T>, b: set<T>)
    requires a <= b
    ensures |a| <= |b|
  {
    if a != {} {
      var x :| x in a;
      SubsetSize(a - {x}, b - {x});
    }
  }

  /** A listed transfer that differs from everything listed before it is on the page, unless the page
      is full of transfers at least as new. */
  lemma ShownUnlessCrowded(outgoing: seq<Transfer>, incoming: seq<Transfer>, limit: int, i: nat)
    requires i < |outgoing + incoming| && forall t | t in outgoing + incoming :: IsPlain(t)
    requires forall j | 0 <= j < i :: !SameTransfer((outgoing + incoming)[j], (outgoing + incoming)[i])
    ensures var t, page := (outgoing + incoming)[i], MergedPage(outgoing, incoming, limit);
            t in page || (limit > 0 && |page| == limit && forall x | x in page :: Block(x) >= Block(t))
  {
    var s := outgoing + incoming;
    KeptOnce(s, i);
    DedupeIs(s);
    SortedIs(Dedupe(s));
    hide Identity, Block, Dedupe, Sort, SameTransfer, IsPlain;
    var merged, page, t := Sort(Newer, Dedupe(s)), MergedPage(outgoing, incoming, limit), s[i];
    var k :| 0 <= k < |merged| && merged[k] == t;
    if k < |page| {
      assert page[k] == t;
    } else {
      forall x | x in page
        ensures Block(x) >= Block(t)
      {
        var j :| 0 <= j < |page| && page[j] == x;
        assert merged[j] == x && !Newer(merged[k], merged[j]);
      }
    }
  }

  /** A block text names a number: hex digits in either case, with leading zeros, after 0x or not. */
  lemma BlockIsHex(text: string, digits: string, zeros: nat, n: nat)
    requires text == digits || text == "0x" + digits
    requires MarketKey.ToLower(digits) == Balance.Zeros(zeros) + Balance.InBase(n, 16)
    ensures BlockNumValue(text) == if n <= UINT64_MAX then n else 0
  {
    WrittenHex(digits, zeros, n);
    if text == "0x" + digits {
      assert text[2..] == digits;
    } else {
      NotMarked(text);
    }
    hide IsHex, Balance.RunValue;
  }

  lemma NotMarked(text: string)
    requires forall i | 0 <= i < |text| :: Balance.DigitIn36(text[i]) < 16
    ensures !("0x" <= text)
  {
    assert Balance.DigitIn36('x') == 33;
    assert |text| >= 2 ==> text[1] != 'x';
  }

  lemma WrittenHex(digits: string, zeros: nat, n: nat)
    requires MarketKey.ToLower(digits) == Balance.Zeros(zeros) + Balance.InBase(n, 16)
    ensures IsHex(digits) && Balance.RunValue(digits, 16) == n
    ensures forall i | 0 <= i < |digits| :: Balance.DigitIn36(digits[i]) < 16
  {
    Balance.HexDigits(digits, zeros, n);
    hide Balance.RunValue, Balance.DigitIn36, MarketKey.ToLower, Balance.InBase, Balance.Zeros;
  }

  /** Any other text names block zero, which sorts last. */
  lemma NoBlock(text: string, digits: string, i: nat)
    requires text == "0x" + digits || (text == digits && !("0x" <= text))
    requires digits == "" || (i < |digits| && MarketKey.LowerChar(digits[i]) !in Balance.DIGITS)
    ensures BlockNumValue(text) == 0
  {
    if text == "0x" + digits {
      assert text[2..] == digits;
    }
    if digits != "" {
      Balance.DigitIs(digits[i], 16);
      assert Balance.DIGITS[..16] == Balance.DIGITS;
    }
  }

  /** Transfers of the same block keep the order in which the two listings, outgoing first, and
      the deduplication left them. */
  lemma TiesKeepOrder(outgoing: seq<Transfer>, incoming: seq<Transfer>, block: nat)
    ensures var keep := (t: Transfer) => Block(t) == block;
            Filter(keep, Sort(Newer, Dedupe(outgoing + incoming))) == Filter(keep, Dedupe(outgoing + incoming))
  {
    NewerIsWeakOrder();
    SortStable(Newer, (t: Transfer) => Block(t) == block, Dedupe(outgoing + incoming));
  }
}
