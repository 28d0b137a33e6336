/** How many packets a call of HandleTxReqs moves, told from the lengths of what waits and what is in flight. */
module TxLengths {
  import opened Bytes
  import opened TxFifo
  import opened TxEngine

  /** The bytes of the transmit memory that packets of these lengths take up. */
  function Used(lengths: seq<nat>): nat {
    if lengths == [] then 0 else Round4(lengths[0]) + Used(lengths[1..])
  }

  /** Packets are moved until none is left, the next is empty, or descriptors or bytes run out. */
  function Moves(queued: seq<nat>, inTx: nat, used: nat): (n: nat)
    ensures n <= |queued|
  {
    if queued == [] || queued[0] == 0 || BD_MAX <= inTx || TX_BUFSIZE < used + Round4(queued[0]) then 0
    else 1 + Moves(queued[1..], inTx + 1, used + Round4(queued[0]))
  }

  function Lengths(q: seq<Frame>): (lengths: seq<nat>)
    ensures |lengths| == |q|
  {
    seq(|q|, i requires 0 <= i < |q| => |q[i].payload|)
  }

  lemma {:induction false} ImageIsUsed(q: seq<Frame>)
    ensures |Image(q)| == Used(Lengths(q))
  {
    if q != [] {
      ImageIsUsed(q[1..]);
      assert Lengths(q)[1..] == Lengths(q[1..]);
    }
  }

  /** That is the number for which descriptors and bytes suffice, as one more packet would not fit. */
  lemma {:induction false} MovesIsLongest(r: Ring, q: seq<Frame>, n: nat, inTx: nat, used: nat)
    requires r.numInTx == inTx && r.space + used == TX_BUFSIZE
    requires Fits(r, q, n) && !Fits(r, q, n + 1)
    ensures n == Moves(Lengths(q), inTx, used)
    decreases |q|
  {
    if n == 0 {
      if q != [] {
        ImageOne(q[0]);
        assert q[..1] == [q[0]];
      }
    } else {
      var f, rest := q[0], q[1..];
      FitsBehind(r, q, n);
      FitsBehind(r, q, n + 1);
      ImageMonotone(q, 1, n);
      ImageOne(f);
      assert q[..1] == [f];
      MovesIsLongest(r.(numInTx := r.numInTx + 1, space := r.space - |Padded(f)|), rest, n - 1,
                     inTx + 1, used + |Padded(f)|);
      assert Lengths(q)[1..] == Lengths(rest);
    }
  }

  lemma FitsBehind(r: Ring, q: seq<Frame>, n: nat)
    requires 0 < n && q != [] && q[0].payload != [] && r.numInTx < BD_MAX && |Padded(q[0])| <= r.space
    ensures Fits(r, q, n) <==>
            Fits(r.(numInTx := r.numInTx + 1, space := r.space - |Padded(q[0])|), q[1..], n - 1)
  {
    if n <= |q| {
      assert q[..n] == [q[0]] + q[1..][..n - 1];
      ImageJoin([q[0]], q[1..][..n - 1]);
      ImageOne(q[0]);
      if forall i :: 0 <= i < n - 1 ==> q[1..][i].payload != [] {
        forall i | 0 <= i < n
          ensures q[i].payload != []
        {
          assert i == 0 || q[i] == q[1..][i - 1];
        }
      }
    }
  }

  /** So a call of HandleTxReqs moves that many. */
  lemma CallMoves(r: Ring, fl: seq<Frame>, q: seq<Frame>, n: nat)
    requires Accounts(r, fl) && Fits(r, q, n) && !Fits(r, q, n + 1)
    ensures n == Moves(Lengths(q), |fl|, Used(Lengths(fl)))
  {
    ImageIsUsed(fl);
    MovesIsLongest(r, q, n, |fl|, Used(Lengths(fl)));
  }

  /** A packet that can be sent is left behind only if something is in flight then. */
  lemma {:induction false} StopsBeside(queued: seq<nat>, inTx: nat, used: nat)
    requires inTx == 0 ==> used == 0
    ensures var n := Moves(queued, inTx, used);
            n < |queued| && 0 < queued[n] <= TX_BUFSIZE ==> 0 < inTx + n
  {
  }
}
