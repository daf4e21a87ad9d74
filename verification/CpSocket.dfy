/** The send-everything loop of the socket wrappers. */
module CpSocket {
  import opened Wire

  /** What send number `k` answers, given `left` bytes: a count of bytes taken, never more
      than offered, or zero or a negative error. */
  function Answer(net: nat -> int, k: nat, left: nat): int {
    Min(net(k), left)
  }

  /** The bytes that sends number `k` and later take from `rest`, until one takes none or
      everything is gone. */
  function TakenFrom(net: nat -> int, k: nat, rest: seq<Byte>): (taken: seq<Byte>)
    ensures taken <= rest
    decreases |rest|
  {
    var n := Answer(net, k, |rest|);
    if n <= 0 then [] else rest[..n] + TakenFrom(net, k + 1, rest[n..])
  }

  /** One send from position `total` of the buffer. */
  lemma OneSend(net: nat -> int, k: nat, all: seq<Byte>, total: nat)
    requires total <= |all|
    ensures var n := Answer(net, k, |all| - total);
            TakenFrom(net, k, all[total..])
            == if n <= 0 then [] else all[total..total + n] + TakenFrom(net, k + 1, all[total + n..])
  {
    var n := Answer(net, k, |all| - total);
    if n > 0 {
      assert all[total..][..n] == all[total..total + n] && all[total..][n..] == all[total + n..];
    }
  }

  /** The loop of `cp_send_all` over a non-empty buffer. */
  method SendLoop(all: seq<Byte>, net: nat -> int) returns (err: int, taken: seq<Byte>, sends: nat)
    requires all != []
    ensures taken == TakenFrom(net, 0, all)
    ensures err == |all| <==> taken == all
    ensures err != |all| ==> net(sends) <= 0 && err == if net(sends) == 0 then 0 else -1
  {
    hide TakenFrom;
    err, taken, sends := |all|, [], 0;
    var total := 0;
    assert all[0..] == all;
    while true
      invariant 0 <= total < |all| && taken == all[..total] && err == |all|
      invariant TakenFrom(net, 0, all) == taken + TakenFrom(net, sends, all[total..])
      decreases |all| - total
    {
      OneSend(net, sends, all, total);
      var n := Answer(net, sends, |all| - total);
      if n > 0 {
        taken := taken + all[total..total + n];
        assert taken == all[..total + n];
        total := total + n;
        sends := sends + 1;
      } else if n == 0 {
        err := 0;
        break;
      } else {
        err := -1;
        break;
      }
      if total >= |all| {
        assert all[total..] == [];
        break;
      }
    }
  }

  /** `cp_send_all`. Whatever the single sends take, the bytes taken are a prefix of the
      buffer in order, and the result is `len` exactly when that prefix is the whole buffer;
      otherwise it tells a send that took nothing (0) from one that failed (-1). */
  method SendAll(buf: Option<seq<Byte>>, len: int, net: nat -> int) returns (err: int, taken: seq<Byte>, sends: nat)
    requires buf.Some? && len > 0 ==> |buf.value| >= len
    ensures buf.None? || len < 1 ==> err == 0 && taken == [] && sends == 0
    ensures buf.Some? && len >= 1 ==>
              && taken == TakenFrom(net, 0, buf.value[..len])
              && taken <= buf.value
              && (err == len <==> taken == buf.value[..len])
              && (err != len ==> net(sends) <= 0 && err == if net(sends) == 0 then 0 else -1)
  {
    if buf.None? || len < 1 {
      return 0, [], 0;
    }
    err, taken, sends := SendLoop(buf.value[..len], net);
  }
}
