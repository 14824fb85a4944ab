/// search_peers: the tickers whose market cap lies in a band around the
/// target's, largest first, at most five, keeping only those whose name
/// lookup succeeds.
module Peers {
  import opened Common
  import opened Krx

  /// Above this cap (10 trillion won) the widest band applies.
  const LARGE_CAP: int := 10_000_000_000_000
  /// Above this cap (1 trillion won) the middle band applies.
  const MID_CAP: int := 1_000_000_000_000
  /// How many candidates are kept after sorting.
  const MAX_PEERS: nat := 5
  /// The `method` field of the response.
  const MATCH_METHOD := "market_cap_similarity"

  /// The ratio band [minTenths / 10, maxTenths / 10] around the target's cap.
  datatype Band = Band(minTenths: int, maxTenths: int)

  /// One reported peer.
  datatype Peer = Peer(ticker: string, name: string, marketCap: int)
  {
    function Row(): CapRow { CapRow(ticker, marketCap) }
  }

  /// The response: the target, its cap, the peers and the matching method.
  datatype PeerReport = PeerReport(mainTicker: string, mainMarketCap: int, peers: seq<Peer>, matchMethod: string)

  /// The three-tier ladder: [0.1, 10] above 10 trillion, [0.3, 3] above
  /// 1 trillion, [0.5, 2] otherwise.
  function BandFor(targetCap: int): Band
  {
    if targetCap > LARGE_CAP then Band(1, 100)
    else if targetCap > MID_CAP then Band(3, 30)
    else Band(5, 20)
  }

  /// `target * min_ratio <= cap <= target * max_ratio`, in exact arithmetic.
  predicate InBand(cap: int, target: int, b: Band)
  {
    b.minTenths * target <= 10 * cap <= b.maxTenths * target
  }

  /// The filter condition of the candidate selection.
  predicate Eligible(r: CapRow, ticker: string, targetCap: int)
  {
    r.ticker != ticker && InBand(r.cap, targetCap, BandFor(targetCap))
  }

  /// The tiers are cut strictly (10 trillion itself takes the middle band),
  /// a larger cap never gets a narrower band, and a non-negative target
  /// always lies inside its own band.
  lemma BandLadder(c1: int, c2: int)
    ensures BandFor(LARGE_CAP) == Band(3, 30) && BandFor(LARGE_CAP + 1) == Band(1, 100)
    ensures BandFor(MID_CAP) == Band(5, 20) && BandFor(MID_CAP + 1) == Band(3, 30)
    ensures c1 <= c2 ==>
      BandFor(c2).minTenths <= BandFor(c1).minTenths && BandFor(c1).maxTenths <= BandFor(c2).maxTenths
    ensures c1 >= 0 ==> InBand(c1, c1, BandFor(c1))
  {
  }

  /// `a` is `b` with some elements removed, order kept.
  predicate IsSubsequence<T(==)>(a: seq<T>, b: seq<T>)
    decreases |b|
  {
    a == [] ||
    (b != [] &&
      if a[|a| - 1] == b[|b| - 1] then IsSubsequence(a[..|a| - 1], b[..|b| - 1])
      else IsSubsequence(a, b[..|b| - 1]))
  }

  /// The positions of the table's eligible rows.
  ghost function EligibleAt(table: seq<CapRow>, ticker: string, targetCap: int): set<int>
  {
    set i | 0 <= i < |table| && Eligible(table[i], ticker, targetCap)
  }

  /// The boolean-mask selection: the eligible rows, in table order.
  function Similar(table: seq<CapRow>, ticker: string, targetCap: int): (s: seq<CapRow>)
    ensures forall r :: r in s <==> r in table && Eligible(r, ticker, targetCap)
  {
    if table == [] then []
    else
      var init := table[..|table| - 1];
      var last := table[|table| - 1];
      assert table == init + [last];
      Similar(init, ticker, targetCap) + if Eligible(last, ticker, targetCap) then [last] else []
  }

  /// The selection keeps every eligible row exactly as often as the table
  /// holds it, and no other row.
  lemma {:induction false} SimilarCounts(table: seq<CapRow>, ticker: string, targetCap: int)
    ensures forall r :: multiset(Similar(table, ticker, targetCap))[r] ==
                          (if Eligible(r, ticker, targetCap) then multiset(table)[r] else 0)
  {
    if table != [] {
      var init := table[..|table| - 1];
      var last := table[|table| - 1];
      SimilarCounts(init, ticker, targetCap);
      assert table == init + [last];
      assert multiset(table) == multiset(init) + multiset{last};
    }
  }

  /// The selection has one row per eligible position of the table.
  lemma {:induction false} SimilarLength(table: seq<CapRow>, ticker: string, targetCap: int)
    ensures |Similar(table, ticker, targetCap)| == |EligibleAt(table, ticker, targetCap)|
  {
    if table != [] {
      var n := |table| - 1;
      SimilarLength(table[..n], ticker, targetCap);
      EligibleAtSnoc(table, ticker, targetCap);
    }
  }

  /// The eligible positions of a table are those of all but its last row,
  /// plus the last position when that row is eligible.
  lemma EligibleAtSnoc(table: seq<CapRow>, ticker: string, targetCap: int)
    requires table != []
    ensures var n := |table| - 1;
      var before := EligibleAt(table[..n], ticker, targetCap);
      n !in before &&
      EligibleAt(table, ticker, targetCap) ==
        before + if Eligible(table[n], ticker, targetCap) then {n} else {}
  {
    var n := |table| - 1;
    var init := table[..n];
    var tail := if Eligible(table[n], ticker, targetCap) then {n} else {};
    forall i
      ensures i in EligibleAt(table, ticker, targetCap) <==> i in EligibleAt(init, ticker, targetCap) + tail
    {
      if 0 <= i < n {
        assert table[i] == init[i];
      }
    }
  }

  /// The selection keeps table order.
  lemma {:induction false} SimilarInOrder(table: seq<CapRow>, ticker: string, targetCap: int)
    ensures IsSubsequence(Similar(table, ticker, targetCap), table)
  {
    if table != [] {
      var init := table[..|table| - 1];
      var last := table[|table| - 1];
      var s' := Similar(init, ticker, targetCap);
      SimilarInOrder(init, ticker, targetCap);
      if Eligible(last, ticker, targetCap) {
        assert (s' + [last])[..|s'|] == s';
      } else {
        assert s' + [] == s';
        if s' != [] {
          assert s'[|s'| - 1] in s';
        }
      }
    }
  }

  /// In a table keyed by ticker, no later row shares the first row's ticker.
  lemma HeadTickerFresh(s: seq<CapRow>)
    requires s != [] && UniqueTickers(s)
    ensures forall x :: x in s[1..] ==> x.ticker != s[0].ticker
  {
    forall x | x in s[1..]
      ensures x.ticker != s[0].ticker
    {
      var k :| 0 <= k < |s| - 1 && s[1..][k] == x;
      assert s[k + 1] == x;
    }
  }

  /// Market caps never increase along the sequence.
  predicate SortedByCap(s: seq<CapRow>)
  {
    forall i, j :: 0 <= i < j < |s| ==> s[i].cap >= s[j].cap
  }

  /// A row no smaller than the head of a sorted list may go in front of it.
  lemma SortedCons(x: CapRow, s: seq<CapRow>)
    requires SortedByCap(s)
    requires s == [] || x.cap >= s[0].cap
    ensures SortedByCap([x] + s)
  {
    forall i, j | 0 <= i < j < |[x] + s|
      ensures ([x] + s)[i].cap >= ([x] + s)[j].cap
    {
      if i > 0 {
        assert ([x] + s)[i] == s[i - 1];
      }
    }
  }

  function InsertByCap(r: CapRow, s: seq<CapRow>): (t: seq<CapRow>)
    requires SortedByCap(s)
    ensures SortedByCap(t)
    ensures multiset(t) == multiset(s) + multiset{r}
    ensures |t| == |s| + 1 && (t[0] == r || (s != [] && t[0] == s[0]))
  {
    if s == [] then [r]
    else if r.cap >= s[0].cap then
      SortedCons(r, s);
      [r] + s
    else
      SortedTail(s);
      var t' := InsertByCap(r, s[1..]);
      InsertStep(r, s, t');
      [s[0]] + t'
  }

  lemma SortedTail(s: seq<CapRow>)
    requires SortedByCap(s) && s != []
    ensures SortedByCap(s[1..])
  {
    forall i, j | 0 <= i < j < |s| - 1
      ensures s[1..][i].cap >= s[1..][j].cap
    {
      assert s[1..][i] == s[i + 1] && s[1..][j] == s[j + 1];
    }
  }

  /// Putting the head back in front of the tail's insertion result.
  lemma InsertStep(r: CapRow, s: seq<CapRow>, t': seq<CapRow>)
    requires SortedByCap(s) && s != [] && r.cap < s[0].cap
    requires SortedByCap(t') && t' != []
    requires multiset(t') == multiset(s[1..]) + multiset{r}
    requires t'[0] == r || (|s| > 1 && t'[0] == s[1])
    ensures SortedByCap([s[0]] + t')
    ensures multiset([s[0]] + t') == multiset(s) + multiset{r}
  {
    assert s == [s[0]] + s[1..];
    SortedCons(s[0], t');
  }

  /// Every row of the insertion's result is the inserted row or one of the list's.
  lemma InsertMembers(r: CapRow, s: seq<CapRow>)
    requires SortedByCap(s)
    ensures forall x :: x in InsertByCap(r, s) ==> x == r || x in s
  {
    var t := InsertByCap(r, s);
    forall x | x in t
      ensures x == r || x in s
    {
      assert x in multiset(t);
    }
  }

  /// Inserting a row whose ticker the sorted list lacks keeps tickers unique.
  lemma {:induction false} InsertKeepsTickersUnique(r: CapRow, s: seq<CapRow>)
    requires SortedByCap(s) && UniqueTickers(s)
    requires forall y :: y in s ==> y.ticker != r.ticker
    ensures UniqueTickers(InsertByCap(r, s))
  {
    if s != [] && r.cap < s[0].cap {
      assert UniqueTickers(s[1..]);
      InsertKeepsTickersUnique(r, s[1..]);
      InsertMembers(r, s[1..]);
      HeadTickerFresh(s);
      var t := InsertByCap(r, s);
      assert t == [s[0]] + InsertByCap(r, s[1..]);
    }
  }

  /// `sort_values(ascending=False)`: a permutation ordered by cap, largest first.
  function SortByCap(s: seq<CapRow>): (t: seq<CapRow>)
    ensures SortedByCap(t)
    ensures multiset(t) == multiset(s)
  {
    if s == [] then []
    else
      assert s == [s[0]] + s[1..];
      InsertByCap(s[0], SortByCap(s[1..]))
  }

  /// Sorting a table keyed by ticker keeps its tickers unique.
  lemma {:induction false} SortKeepsTickersUnique(s: seq<CapRow>)
    requires UniqueTickers(s)
    ensures UniqueTickers(SortByCap(s))
  {
    if s != [] {
      var t' := SortByCap(s[1..]);
      assert UniqueTickers(s[1..]);
      SortKeepsTickersUnique(s[1..]);
      HeadTickerFresh(s);
      forall y | y in t'
        ensures y.ticker != s[0].ticker
      {
        assert y in multiset(t');
        assert y in multiset(s[1..]);
      }
      InsertKeepsTickersUnique(s[0], t');
    }
  }

  /// `index[:5]`.
  function Top(s: seq<CapRow>, k: nat): seq<CapRow>
  {
    if |s| <= k then s else s[..k]
  }

  /// The top five eligible rows by cap.
  function Candidates(table: seq<CapRow>, ticker: string, targetCap: int): seq<CapRow>
  {
    Top(SortByCap(Similar(table, ticker, targetCap)), MAX_PEERS)
  }

  /// The first k elements of a sequence sorted by cap are sorted, and no
  /// element left out has a larger cap than one kept.
  lemma TopOfSorted(s: seq<CapRow>, k: nat)
    requires SortedByCap(s)
    ensures |Top(s, k)| == (if |s| < k then |s| else k)
    ensures SortedByCap(Top(s, k))
    ensures forall x :: x in Top(s, k) ==> x in s
    ensures forall r, p :: r in s && r !in Top(s, k) && p in Top(s, k) ==> r.cap <= p.cap
    ensures UniqueTickers(s) ==> UniqueTickers(Top(s, k))
  {
    if k < |s| {
      PrefixSorted(s, k);
      PrefixMaximal(s, k);
      PrefixUnique(s, k);
    }
  }

  lemma PrefixSorted(s: seq<CapRow>, k: nat)
    requires SortedByCap(s) && k <= |s|
    ensures SortedByCap(s[..k])
  {
    forall i, j | 0 <= i < j < k
      ensures s[..k][i].cap >= s[..k][j].cap
    {
      assert s[..k][i] == s[i] && s[..k][j] == s[j];
    }
  }

  lemma PrefixUnique(s: seq<CapRow>, k: nat)
    requires k <= |s|
    ensures UniqueTickers(s) ==> UniqueTickers(s[..k])
  {
    if UniqueTickers(s) {
      forall i, j | 0 <= i < j < k
        ensures s[..k][i].ticker != s[..k][j].ticker
      {
        assert s[..k][i] == s[i] && s[..k][j] == s[j];
      }
    }
  }

  /// A row past the prefix has no larger cap than one in it.
  lemma PrefixMaximal(s: seq<CapRow>, k: nat)
    requires SortedByCap(s) && k <= |s|
    ensures forall r, p :: r in s && r !in s[..k] && p in s[..k] ==> r.cap <= p.cap
  {
    var t := s[..k];
    forall r, p | r in s && r !in t && p in t
      ensures r.cap <= p.cap
    {
      var j :| 0 <= j < |s| && s[j] == r;
      var i :| 0 <= i < k && t[i] == p;
      assert s[i] == p;
      assert forall m :: 0 <= m < k ==> t[m] == s[m];
      assert k <= j;
    }
  }

  /// The candidates are min(5, n) of the table's n eligible rows, largest
  /// cap first, and every eligible row left out has a cap no larger than any
  /// kept one; in a table keyed by ticker no two candidates share a ticker.
  lemma CandidatesAreTopFive(table: seq<CapRow>, ticker: string, targetCap: int)
    ensures var c := Candidates(table, ticker, targetCap);
      var n := |EligibleAt(table, ticker, targetCap)|;
      && |c| == (if n < MAX_PEERS then n else MAX_PEERS)
      && SortedByCap(c)
      && (forall r :: r in c ==> r in table && Eligible(r, ticker, targetCap))
      && (forall r, p :: r in table && Eligible(r, ticker, targetCap) && r !in c && p in c ==> r.cap <= p.cap)
      && (UniqueTickers(table) ==> UniqueTickers(c))
  {
    var similar := Similar(table, ticker, targetCap);
    var sorted := SortByCap(similar);
    SimilarLength(table, ticker, targetCap);
    assert |sorted| == |similar| by {
      assert |multiset(sorted)| == |multiset(similar)|;
    }
    assert forall x :: x in sorted <==> x in similar by {
      forall x
        ensures x in sorted <==> x in similar
      {
        assert x in sorted <==> x in multiset(sorted);
        assert x in similar <==> x in multiset(similar);
      }
    }
    if UniqueTickers(table) {
      SimilarInOrder(table, ticker, targetCap);
      SubsequenceFacts(similar, table);
      SortKeepsTickersUnique(similar);
    }
    TopOfSorted(sorted, MAX_PEERS);
  }

  /// The candidates whose name lookup succeeds, as peers, in order.
  function NamedPeers(rows: seq<CapRow>, names: map<string, string>): seq<Peer>
  {
    if rows == [] then []
    else
      var init := NamedPeers(rows[..|rows| - 1], names);
      var r := rows[|rows| - 1];
      if r.ticker in names then init + [Peer(r.ticker, names[r.ticker], r.cap)] else init
  }

  /// The loop over the candidates that skips a failed name lookup.
  method CollectPeers(rows: seq<CapRow>, names: map<string, string>) returns (peers: seq<Peer>)
    ensures peers == NamedPeers(rows, names)
  {
    peers := [];
    for i := 0 to |rows|
      invariant peers == NamedPeers(rows[..i], names)
    {
      var peerTicker := rows[i].ticker;
      assert rows[..i + 1][..i] == rows[..i];
      if peerTicker !in names {
        continue;
      }
      peers := peers + [Peer(peerTicker, names[peerTicker], rows[i].cap)];
    }
    assert rows[..|rows|] == rows;
  }

  /// The rows (ticker, cap) of the peers.
  function Rows(ps: seq<Peer>): (rs: seq<CapRow>)
    ensures |rs| == |ps| && forall i :: 0 <= i < |ps| ==> rs[i] == ps[i].Row()
  {
    seq(|ps|, i requires 0 <= i < |ps| => ps[i].Row())
  }

  /// A subsequence is no longer, holds only elements of the original and
  /// inherits its ordering by cap and its unique tickers.
  lemma {:induction false} SubsequenceFacts(a: seq<CapRow>, b: seq<CapRow>)
    requires IsSubsequence(a, b)
    ensures |a| <= |b|
    ensures forall x :: x in a ==> x in b
    ensures SortedByCap(b) ==> SortedByCap(a)
    ensures UniqueTickers(b) ==> UniqueTickers(a)
    decreases |b|
  {
    if a != [] {
      var b' := b[..|b| - 1];
      assert b == b' + [b[|b| - 1]];
      if a[|a| - 1] == b[|b| - 1] {
        var a' := a[..|a| - 1];
        assert a == a' + [a[|a| - 1]];
        SubsequenceFacts(a', b');
        if SortedByCap(b) {
          forall i, j | 0 <= i < j < |a|
            ensures a[i].cap >= a[j].cap
          {
            if j < |a| - 1 {
              assert a[i] == a'[i] && a[j] == a'[j];
            } else {
              assert a[i] == a'[i] && a'[i] in b';
              var k :| 0 <= k < |b'| && b'[k] == a[i];
              assert b[k] == a[i];
            }
          }
        }
        if UniqueTickers(b) {
          forall i, j | 0 <= i < j < |a|
            ensures a[i].ticker != a[j].ticker
          {
            if j < |a| - 1 {
              assert a[i] == a'[i] && a[j] == a'[j];
            } else {
              assert a[i] == a'[i] && a'[i] in b';
              var k :| 0 <= k < |b'| && b'[k] == a[i];
              assert b[k] == a[i];
            }
          }
        }
      } else {
        SubsequenceFacts(a, b');
      }
    }
  }

  /// The peers are exactly the candidates whose name lookup succeeds, in
  /// candidate order, each carrying the looked-up name.
  lemma NamedPeersFilter(rows: seq<CapRow>, names: map<string, string>)
    ensures IsSubsequence(Rows(NamedPeers(rows, names)), rows)
    ensures forall p :: p in NamedPeers(rows, names) ==> p.ticker in names && p.name == names[p.ticker]
    ensures forall r :: r in rows && r.ticker in names ==> Peer(r.ticker, names[r.ticker], r.cap) in NamedPeers(rows, names)
  {
    NamedPeersLookups(rows, names);
    NamedPeersInOrder(rows, names);
  }

  lemma {:induction false} NamedPeersLookups(rows: seq<CapRow>, names: map<string, string>)
    ensures forall p :: p in NamedPeers(rows, names) ==> p.ticker in names && p.name == names[p.ticker]
    ensures forall r :: r in rows && r.ticker in names ==> Peer(r.ticker, names[r.ticker], r.cap) in NamedPeers(rows, names)
    decreases |rows|
  {
    if rows != [] {
      var init := rows[..|rows| - 1];
      assert rows == init + [rows[|rows| - 1]];
      NamedPeersLookups(init, names);
    }
  }

  lemma {:induction false} NamedPeersInOrder(rows: seq<CapRow>, names: map<string, string>)
    ensures IsSubsequence(Rows(NamedPeers(rows, names)), rows)
    decreases |rows|
  {
    if rows != [] {
      var init := rows[..|rows| - 1];
      var r := rows[|rows| - 1];
      assert rows == init + [r];
      NamedPeersInOrder(init, names);
      var ps := NamedPeers(init, names);
      if r.ticker in names {
        var p := Peer(r.ticker, names[r.ticker], r.cap);
        assert Rows(ps + [p]) == Rows(ps) + [r];
        assert Rows(ps + [p])[..|ps|] == Rows(ps);
      } else if Rows(ps) != [] {
        NamedPeersLookups(init, names);
        var last := ps[|ps| - 1];
        assert last in ps;
        assert Rows(ps)[|ps| - 1] != r;
      }
    }
  }

  /// Reference definition of the handler's result, given the day's cap table.
  function PeerSearch(table: CapTable, ticker: string, names: map<string, string>): (r: Result<PeerReport>)
    ensures r.Err? <==> !Listed(table, ticker)
    ensures r.Err? ==> r.error == TickerNotFound(ticker)
  {
    if !Listed(table, ticker) then Err(TickerNotFound(ticker))
    else
      var targetCap := CapOf(table, ticker);
      Ok(PeerReport(ticker, targetCap, NamedPeers(Candidates(table, ticker, targetCap), names), MATCH_METHOD))
  }

  /// The handler. It is a method because the name lookups are a loop;
  /// `PeerSearch` is the same computation as a function, for contracts and
  /// lemmas to use.
  method SearchPeers(table: CapTable, ticker: string, names: map<string, string>) returns (r: Result<PeerReport>)
    ensures r == PeerSearch(table, ticker, names)
  {
    if !Listed(table, ticker) {
      return Err(TickerNotFound(ticker));
    }
    var targetCap := CapOf(table, ticker);
    var peerRows := Candidates(table, ticker, targetCap);
    var peers := CollectPeers(peerRows, names);
    r := Ok(PeerReport(ticker, targetCap, peers, MATCH_METHOD));
  }

  /// What a successful search promises: the target's own cap is reported;
  /// at most five peers, largest cap first; each is a listed row other than
  /// the target whose cap lies in the target's band and whose name lookup
  /// succeeded; they are the top-five candidates in order with the failed
  /// lookups dropped; no two peers share a ticker.
  lemma PeerSearchProperties(table: CapTable, ticker: string, names: map<string, string>)
    requires Listed(table, ticker)
    ensures var rep := PeerSearch(table, ticker, names).value;
      var c := rep.mainMarketCap;
      && rep.mainTicker == ticker
      && (forall i :: 0 <= i < |table| && table[i].ticker == ticker ==> c == table[i].cap)
      && |rep.peers| <= MAX_PEERS
      && (forall i, j :: 0 <= i < j < |rep.peers| ==> rep.peers[i].marketCap >= rep.peers[j].marketCap)
      && (forall p :: p in rep.peers ==>
            && p.ticker != ticker
            && InBand(p.marketCap, c, BandFor(c))
            && p.Row() in table
            && p.ticker in names && p.name == names[p.ticker])
      && IsSubsequence(Rows(rep.peers), Candidates(table, ticker, c))
      && (forall i, j :: 0 <= i < j < |rep.peers| ==> rep.peers[i].ticker != rep.peers[j].ticker)
  {
    var rep := PeerSearch(table, ticker, names).value;
    var c := rep.mainMarketCap;
    var cands := Candidates(table, ticker, c);
    CandidatesAreTopFive(table, ticker, c);
    NamedPeersFilter(cands, names);
    SubsequenceFacts(Rows(rep.peers), cands);
    PeerOrder(rep.peers);
    PeerRowsIn(rep.peers, cands);
  }

  /// Order and distinctness of peers are those of their rows.
  lemma PeerOrder(ps: seq<Peer>)
    requires SortedByCap(Rows(ps)) && UniqueTickers(Rows(ps))
    ensures forall i, j :: 0 <= i < j < |ps| ==> ps[i].marketCap >= ps[j].marketCap
    ensures forall i, j :: 0 <= i < j < |ps| ==> ps[i].ticker != ps[j].ticker
  {
    forall i, j | 0 <= i < j < |ps|
      ensures ps[i].marketCap >= ps[j].marketCap && ps[i].ticker != ps[j].ticker
    {
      assert Rows(ps)[i] == ps[i].Row() && Rows(ps)[j] == ps[j].Row();
    }
  }

  /// A peer whose rows all lie among some rows has its own row there.
  lemma PeerRowsIn(ps: seq<Peer>, rows: seq<CapRow>)
    requires forall x :: x in Rows(ps) ==> x in rows
    ensures forall p :: p in ps ==> p.Row() in rows
  {
    forall p | p in ps
      ensures p.Row() in rows
    {
      var k :| 0 <= k < |ps| && ps[k] == p;
      assert Rows(ps)[k] == p.Row();
    }
  }
}
