/** A group from queue to receiver: cutting a queue into requests, writing each one, and
    reading it back on the other side. */
module AmGroupDelivery {
  import opened Options
  import opened Sums
  import opened AmGroupSplit
  import opened AmGroupQueues
  import opened AmGroupCodec

  /** What the receiver makes of one request. */
  function Unpacked<Am>(g: Registry<Am>, ams: seq<Am>, r: Range): seq<Am>
    requires r.si <= r.ei <= |ams| && forall am :: am in ams ==> IsId(g.id(am))
  {
    var got := Decoded(g, Encoded(g, ams[r.si..r.ei]));
    if got.Some? then got.value else []
  }

  /** All that arrives, request after request. */
  function Received<Am>(g: Registry<Am>, ams: seq<Am>, rs: seq<Range>): seq<Am>
    requires forall j :: 0 <= j < |rs| ==> rs[j].si <= rs[j].ei <= |ams|
    requires forall am :: am in ams ==> IsId(g.id(am))
  {
    if rs == [] then []
    else Received(g, ams, rs[..|rs| - 1]) + Unpacked(g, ams, rs[|rs| - 1])
  }

  lemma {:induction false} ReceivedIsCarried<Am(!new)>(g: Registry<Am>, ams: seq<Am>, rs: seq<Range>)
    requires SelfDelimiting(g) && |ams| < Bound(CountWidth)
    requires forall j :: 0 <= j < |rs| ==> rs[j].si <= rs[j].ei <= |ams|
    ensures Received(g, ams, rs) == Carried(ams, rs)
  {
    hide Bound, Encoded, Decoded;
    if rs != [] {
      ReceivedIsCarried(g, ams, rs[..|rs| - 1]);
      var r := rs[|rs| - 1];
      RoundTrip(g, ams[r.si..r.ei], []);
      assert Encoded(g, ams[r.si..r.ei]) + [] == Encoded(g, ams[r.si..r.ei]);
    }
  }

  /** The receiver gets the queued messages, each once and in order, exactly when the queue is
      small enough for one request or does not end in messages the splitting loop forgets. */
  lemma GroupDelivered<Am(!new)>(g: Registry<Am>, q: Queue<Am>, rs: seq<Range>)
    requires SelfDelimiting(g) && |q.ams| < Bound(CountWidth) && SentOk(q, rs, g.size)
    ensures Received(g, q.ams, rs) == q.ams
       <==> q.size <= Target || NothingLost(SizesOf(g.size, q.ams), q.size)
  {
    hide Bound, NothingLost, SizesOf;
    ReceivedIsCarried(g, q.ams, rs);
    if Received(g, q.ams, rs) == q.ams {
      assert |q.ams[..Reach(rs)]| == Reach(rs);
    }
  }
}
