/**
 Replay protection. The server accepts a signer's nonces in strictly increasing order across all of its
 endpoints, the browser hands out strictly increasing ones, and match identifiers built from them never repeat.
 */
module Nonces {
  import opened Arithmetic
  import opened Primitives

  datatype Endpoint = PostOrder | PostOffer | PostCancel | PostPortfolioKey

  datatype Request = Request(endpoint: Endpoint, signer: Address, nonce: u64)

  type LastNonces = map<Address, u64>

  /** The guard is the same on every endpoint. */
  predicate Accepts(last: LastNonces, r: Request) {
    r.signer in last ==> r.nonce > last[r.signer]
  }

  function Noted(last: LastNonces, r: Request): LastNonces {
    if Accepts(last, r) then last[r.signer := r.nonce] else last
  }

  function LastAfter(last: LastNonces, rs: seq<Request>): LastNonces {
    if rs == [] then last else Noted(LastAfter(last, rs[..|rs| - 1]), rs[|rs| - 1])
  }

  /** Request `i` of a run is accepted. */
  predicate AcceptedAt(last: LastNonces, rs: seq<Request>, i: nat)
    requires i < |rs|
  {
    Accepts(LastAfter(last, rs[..i]), rs[i])
  }

  lemma {:induction false} LastNeverFalls(last: LastNonces, rs: seq<Request>, i: nat, signer: Address)
    requires i <= |rs|
    ensures signer in LastAfter(last, rs[..i]) ==>
      signer in LastAfter(last, rs) && LastAfter(last, rs[..i])[signer] <= LastAfter(last, rs)[signer]
  {
    if i < |rs| {
      assert rs[..|rs| - 1][..i] == rs[..i];
      LastNeverFalls(last, rs[..|rs| - 1], i, signer);
    } else {
      assert rs[..i] == rs;
    }
  }

  /** Over any run across all endpoints, the accepted nonces of one signer strictly increase. */
  lemma AcceptedNoncesIncrease(last: LastNonces, rs: seq<Request>, i: nat, j: nat)
    requires i < j < |rs| && rs[i].signer == rs[j].signer
    requires AcceptedAt(last, rs, i) && AcceptedAt(last, rs, j)
    ensures rs[i].nonce < rs[j].nonce
  {
    var before := rs[..j];
    assert before[..i + 1][..i] == rs[..i] && before[..i + 1][i] == rs[i];
    assert |before[..i + 1]| - 1 == i;
    assert LastAfter(last, before[..i + 1])[rs[i].signer] == rs[i].nonce;
    LastNeverFalls(last, before, i + 1, rs[i].signer);
  }

  /** Requests of one signer that arrive in strictly increasing order above its last nonce are all accepted. */
  lemma {:induction false} InOrderIsNeverReplay(last: LastNonces, rs: seq<Request>, signer: Address, i: nat)
    requires i < |rs| && rs[i].signer == signer
    requires forall a, b :: 0 <= a < b < |rs| && rs[a].signer == rs[b].signer == signer ==> rs[a].nonce < rs[b].nonce
    requires signer in last ==> forall a :: 0 <= a < |rs| && rs[a].signer == signer ==> rs[a].nonce > last[signer]
    ensures AcceptedAt(last, rs, i)
  {
    LastComesFromRun(last, rs[..i], signer);
  }

  lemma {:induction false} LastComesFromRun(last: LastNonces, rs: seq<Request>, signer: Address)
    ensures var after := LastAfter(last, rs);
      signer in after ==>
        || (signer in last && after[signer] == last[signer])
        || (exists a :: 0 <= a < |rs| && rs[a].signer == signer && rs[a].nonce == after[signer])
  {
    if rs != [] {
      var n := |rs| - 1;
      LastComesFromRun(last, rs[..n], signer);
      var before := LastAfter(last, rs[..n]);
      if signer in LastAfter(last, rs) && LastAfter(last, rs) != before && rs[n].signer == signer {
        assert rs[n].nonce == LastAfter(last, rs)[signer];
      } else if signer in before && !(signer in last && before[signer] == last[signer]) {
        var a :| 0 <= a < n && rs[..n][a].signer == signer && rs[..n][a].nonce == before[signer];
        assert rs[a].nonce == before[signer];
      }
    }
  }

  // ---- The browser's nonces ----

  function NextNonce(last: nat, clock: nat): nat {
    Max(clock, last + 1)
  }

  /** It is the clock itself once the clock has passed the last nonce, and one more than that nonce until then. */
  lemma NextNonceReachesClock(last: nat, clock: nat)
    ensures NextNonce(last, clock) >= clock && NextNonce(last, clock) > last
    ensures clock > last ==> NextNonce(last, clock) == clock
    ensures clock <= last ==> NextNonce(last, clock) == last + 1
  {}

  /** The browser's counter: the clock, but never at or below the nonce handed out before. */
  class NonceSource {
    var lastNonce: nat

    constructor ()
      ensures lastNonce == 0
    {
      lastNonce := 0;
    }

    method Next(clock: nat) returns (nonce: nat)
      modifies this
      ensures nonce == lastNonce == NextNonce(old(lastNonce), clock)
      ensures nonce > old(lastNonce)
    {
      nonce := Max(clock, lastNonce + 1);
      lastNonce := nonce;
    }
  }

  /** What the browser hands out for a sequence of clock readings, monotone or not. */
  function Handed(last: nat, clocks: seq<nat>): (ns: seq<nat>)
    ensures |ns| == |clocks|
    decreases |clocks|
  {
    if clocks == [] then [] else
    var n := NextNonce(last, clocks[0]);
    [n] + Handed(n, clocks[1..])
  }

  lemma {:induction false} HandedIncrease(last: nat, clocks: seq<nat>)
    ensures forall i :: 0 <= i < |clocks| ==> Handed(last, clocks)[i] > last
    ensures forall i, j :: 0 <= i < j < |clocks| ==> Handed(last, clocks)[i] < Handed(last, clocks)[j]
    decreases |clocks|
  {
    if clocks != [] {
      var n := NextNonce(last, clocks[0]);
      var rest := Handed(n, clocks[1..]);
      HandedIncrease(n, clocks[1..]);
      assert Handed(last, clocks) == [n] + rest;
      forall i | 0 < i < |clocks| ensures Handed(last, clocks)[i] == rest[i - 1] > n {
        assert Handed(n, clocks[1..])[i - 1] > n;
      }
      forall i, j | 0 < i < j < |clocks| ensures Handed(last, clocks)[i] < Handed(last, clocks)[j] {
        assert Handed(n, clocks[1..])[i - 1] < Handed(n, clocks[1..])[j - 1];
      }
    }
  }

  /** The nonces of one signer's requests, in order of arrival. */
  function SignerNonces(rs: seq<Request>, signer: Address): seq<nat> {
    if rs == [] then [] else
    var n := |rs| - 1;
    SignerNonces(rs[..n], signer) + if rs[n].signer == signer then [rs[n].nonce] else []
  }

  lemma {:induction false} NonceAtItsPlace(rs: seq<Request>, signer: Address, i: nat)
    requires i < |rs| && rs[i].signer == signer
    ensures var place := |SignerNonces(rs[..i], signer)|;
      place < |SignerNonces(rs, signer)| && SignerNonces(rs, signer)[place] == rs[i].nonce
  {
    var n := |rs| - 1;
    if i < n {
      NonceAtItsPlace(rs[..n], signer, i);
      assert rs[..n][..i] == rs[..i];
    }
  }

  /**
   Nonces the browser handed out, delivered in order to a server that saw only smaller ones, are never
   rejected as replays, whatever the browser's clock did and whatever other signers send in between.
   */
  lemma BrowserIsNeverRejected(last: LastNonces, rs: seq<Request>, signer: Address, from: nat, clocks: seq<nat>, i: nat)
    requires SignerNonces(rs, signer) == Handed(from, clocks)
    requires signer in last && clocks != [] ==> last[signer] < Handed(from, clocks)[0]
    requires i < |rs| && rs[i].signer == signer
    ensures AcceptedAt(last, rs, i)
  {
    HandedIncrease(from, clocks);
    forall a, b | 0 <= a < b < |rs| && rs[a].signer == rs[b].signer == signer ensures rs[a].nonce < rs[b].nonce {
      NonceAtItsPlace(rs, signer, a);
      NonceAtItsPlace(rs, signer, b);
      NonceAtItsPlace(rs[..b], signer, a);
      assert rs[..b][..a] == rs[..a];
    }
    forall a | 0 <= a < |rs| && rs[a].signer == signer ensures signer in last ==> rs[a].nonce > last[signer] {
      NonceAtItsPlace(rs, signer, a);
    }
    InOrderIsNeverReplay(last, rs, signer, i);
  }

  // ---- Match identifiers ----

  function BigEndian(n: nat, width: nat): (b: seq<byte>)
    ensures |b| == width
  {
    if width == 0 then [] else BigEndian(n / 256, width - 1) + [n % 256]
  }

  function Power256(width: nat): nat {
    if width == 0 then 1 else 256 * Power256(width - 1)
  }

  /** The value of a byte string read from its most significant byte. */
  function ValueOf(b: seq<byte>): nat {
    if b == [] then 0 else b[0] * Power256(|b| - 1) + ValueOf(b[1..])
  }

  lemma {:induction false} ValueSnoc(b: seq<byte>, last: byte)
    ensures ValueOf(b + [last]) == 256 * ValueOf(b) + last
  {
    if b == [] {
      assert ([] + [last])[1..] == [];
      assert Power256(0) == 1 && ValueOf([]) == 0;
    } else {
      assert (b + [last])[1..] == b[1..] + [last];
      ValueSnoc(b[1..], last);
      assert Power256(|b|) == 256 * Power256(|b| - 1);
      assert b[0] * Power256(|b|) == 256 * (b[0] * Power256(|b| - 1));
    }
  }

  /** The most significant byte comes first. */
  lemma {:induction false} BigEndianIsBigEndian(n: nat, width: nat)
    requires n < Power256(width)
    ensures ValueOf(BigEndian(n, width)) == n
  {
    if width > 0 {
      BigEndianIsBigEndian(n / 256, width - 1);
      ValueSnoc(BigEndian(n / 256, width - 1), n % 256);
    }
  }

  lemma {:induction false} BigEndianInjective(a: nat, b: nat, width: nat)
    requires BigEndian(a, width) == BigEndian(b, width)
    requires a < Power256(width) && b < Power256(width)
    ensures a == b
  {
    if width > 0 {
      var x, y := BigEndian(a, width), BigEndian(b, width);
      assert x[..width - 1] == BigEndian(a / 256, width - 1) && y[..width - 1] == BigEndian(b / 256, width - 1);
      assert x[width - 1] == a % 256 && y[width - 1] == b % 256;
      BigEndianInjective(a / 256, b / 256, width - 1);
    }
  }

  lemma U64Fits(n: u64)
    ensures n < Power256(8)
  {
    assert Power256(8) == 256 * 256 * 256 * 256 * Power256(4);
    assert Power256(4) == 256 * 256 * 256 * 256 * Power256(0);
  }

  datatype MatchKey = MatchKey(taker: Address, makerOwner: u64, market: seq<byte>, tick: u64, fillIndex: u64,
                               nonce: u64)

  /** The bytes a match identifier is the hash of; only the market name has no fixed width. */
  function MatchPreimage(m: MatchKey): seq<byte> {
    m.taker + BigEndian(m.makerOwner, 8) + m.market
    + BigEndian(m.tick, 8) + BigEndian(m.nonce, 8) + BigEndian(m.fillIndex, 8)
  }

  lemma MatchPreimageIsInjective(a: MatchKey, b: MatchKey)
    requires MatchPreimage(a) == MatchPreimage(b)
    ensures a == b
  {
    hide BigEndian;
    Pieces(a);
    Pieces(b);
    U64Fits(a.makerOwner); U64Fits(b.makerOwner);
    U64Fits(a.tick); U64Fits(b.tick);
    U64Fits(a.nonce); U64Fits(b.nonce);
    U64Fits(a.fillIndex); U64Fits(b.fillIndex);
    BigEndianInjective(a.makerOwner, b.makerOwner, 8);
    BigEndianInjective(a.tick, b.tick, 8);
    BigEndianInjective(a.nonce, b.nonce, 8);
    BigEndianInjective(a.fillIndex, b.fillIndex, 8);
  }

  lemma Pieces(m: MatchKey)
    ensures var s := MatchPreimage(m);
      var n := |s|;
      && n >= 52
      && s[..20] == m.taker && s[20..28] == BigEndian(m.makerOwner, 8) && s[28..n - 24] == m.market
      && s[n - 24..n - 16] == BigEndian(m.tick, 8) && s[n - 16..n - 8] == BigEndian(m.nonce, 8)
      && s[n - 8..] == BigEndian(m.fillIndex, 8)
  {
    hide BigEndian;
  }

  /** Over any run of requests, two fills of accepted orders share a preimage only if they are the same fill. */
  lemma MatchIdsNeverRepeat(last: LastNonces, rs: seq<Request>, i: nat, j: nat, a: MatchKey, b: MatchKey)
    requires i < |rs| && j < |rs| && AcceptedAt(last, rs, i) && AcceptedAt(last, rs, j)
    requires a.taker == rs[i].signer && a.nonce == rs[i].nonce && b.taker == rs[j].signer && b.nonce == rs[j].nonce
    requires MatchPreimage(a) == MatchPreimage(b)
    ensures i == j && a.fillIndex == b.fillIndex
  {
    MatchPreimageIsInjective(a, b);
    if i < j {
      AcceptedNoncesIncrease(last, rs, i, j);
    } else if j < i {
      AcceptedNoncesIncrease(last, rs, j, i);
    }
  }
}
