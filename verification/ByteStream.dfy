/**
 * The send and receive loops of the socket layer over a byte channel that accepts and delivers arbitrary
 * chunks. The kernel's answers and the clock are functions of the call number. The client and server
 * versions of each loop are the same code; only the server's receive has a one-shot form.
 */
module ByteStream {
  newtype Byte = b: int | 0 <= b < 256

  const SOCK_TIMEOUT_TIME: int := 10000000

  /** The answer of one send or recv call: its result, and whether errno then reads EINTR or EAGAIN. */
  datatype Answer = Answer(ret: int, retryable: bool)

  /** The kernel: call number and requested length to answer. */
  type Kernel = (nat, nat) -> Answer

  /** A call never moves more bytes than asked for, nor more than the int its result is stored in. */
  ghost predicate Posix(kernel: Kernel) {
    forall i: nat, n: nat :: kernel(i, n).ret <= n && kernel(i, n).ret <= 0x7fff_ffff
  }

  /** Clock readings: entry, then after each sleep. Time never goes back, and it moves on over a fruitless call. */
  ghost predicate Advances(kernel: Kernel, clock: nat -> int) {
    && (forall i: nat :: clock(i) <= clock(i + 1))
    && (forall i: nat, n: nat :: kernel(i, n).ret <= 0 ==> clock(i) < clock(i + 1))
  }

  predicate TimedOut(clock: nat -> int, i: nat) {
    clock(i) - clock(0) > SOCK_TIMEOUT_TIME
  }

  lemma TimeoutIsTenSeconds(clock: nat -> int, i: nat)
    ensures TimedOut(clock, i) <==> clock(i) - clock(0) > 10000000
  {
  }

  /** The final cast of a byte count to a 32-bit int. */
  function AsInt(n: nat): int {
    var m := n % 0x1_0000_0000;
    if m < 0x8000_0000 then m else m - 0x1_0000_0000
  }

  /** The last call failed for good with `left` bytes to go, and its result is what the loop returns. */
  predicate Fatal(kernel: Kernel, calls: nat, left: nat, ret: int) {
    calls > 0 && ret == kernel(calls - 1, left).ret && ret <= 0 && !kernel(calls - 1, left).retryable
  }

  /** What a transfer of `length` bytes promises about its result and the count moved. */
  predicate Outcome(length: nat, ret: int, moved: nat, calls: nat, oneShot: bool, kernel: Kernel, clock: nat -> int) {
    && moved <= length
    && (Fatal(kernel, calls, length - moved, ret) || ret == AsInt(moved))
    && (0 < moved == length ==> ret == AsInt(moved))
    && (moved < length ==> Fatal(kernel, calls, length - moved, ret) || TimedOut(clock, calls) || oneShot)
  }

  /** A null server, sender or client handle moves nothing. */
  method SockSend(connected: bool, data: seq<Byte>, kernel: Kernel, clock: nat -> int)
    returns (ret: int, wire: seq<Byte>, calls: nat)
    requires Posix(kernel) && Advances(kernel, clock)
    ensures !connected ==> ret == -1 && wire == []
    ensures wire <= data
    ensures connected ==> Outcome(|data|, ret, |wire|, calls, false, kernel, clock)
  {
    wire, calls := [], 0;
    if !connected {
      return -1, [], 0;
    }
    var left, retry, going := |data|, false, true;
    while going
      invariant |wire| <= |data| && left == |data| - |wire| && wire == data[..|wire|]
      invariant calls > 0 && going ==> retry && left > 0 && !TimedOut(clock, calls)
      invariant calls == 0 ==> going && wire == []
      invariant !going ==> left == 0 || TimedOut(clock, calls)
      decreases going, if calls == 0 then 1 else 0, SOCK_TIMEOUT_TIME - (clock(calls) - clock(0)) + left
    {
      var a := kernel(calls, left);
      calls := calls + 1;
      if a.ret > 0 {
        wire := wire + data[|wire|..|wire| + a.ret];
        left := left - a.ret;
        if left > 0 {
          retry := true;
        }
      } else if a.retryable {
        retry := true;
      } else {
        return a.ret, wire, calls;
      }
      if retry && TimedOut(clock, calls) {
        retry := false;
      }
      going := left > 0 && retry;
    }
    ret := AsInt(|wire|);
  }

  /** The bytes of the stream from `pos` on. */
  function Slice(stream: nat -> Byte, pos: nat, n: nat): (s: seq<Byte>)
    ensures |s| == n
    ensures forall i :: 0 <= i < n ==> s[i] == stream(pos + i)
  {
    seq(n, i requires 0 <= i => stream(pos + i))
  }

  /** Receives into the caller's buffer in place, reading the peer's byte stream from `pos`. */
  method SockRecv(connected: bool, stream: nat -> Byte, pos: nat, dst: array<Byte>, datalen: nat, oneShot: bool,
                  kernel: Kernel, clock: nat -> int)
    returns (ret: int, taken: nat, calls: nat)
    requires Posix(kernel) && Advances(kernel, clock) && datalen <= dst.Length
    modifies dst
    ensures !connected ==> ret == -1 && taken == 0
    ensures taken <= datalen && dst[..taken] == Slice(stream, pos, taken)
    ensures dst[taken..] == old(dst[taken..])
    ensures connected ==> Outcome(datalen, ret, taken, calls, oneShot, kernel, clock)
    ensures connected && oneShot ==> calls == 1 && taken == if kernel(0, datalen).ret > 0 then kernel(0, datalen).ret else 0
  {
    taken, calls := 0, 0;
    if !connected {
      return -1, 0, 0;
    }
    var left, retry, going := datalen, false, true;
    while going
      invariant taken <= datalen && left == datalen - taken
      invariant forall i :: 0 <= i < taken ==> dst[i] == stream(pos + i)
      invariant forall i :: taken <= i < dst.Length ==> dst[i] == old(dst[i])
      invariant calls > 0 && going ==> retry && left > 0 && !TimedOut(clock, calls)
      invariant calls == 0 ==> going && taken == 0
      invariant !going ==> left == 0 || TimedOut(clock, calls) || oneShot
      invariant oneShot ==> !retry && (calls == 0 <==> going) && calls <= 1
      invariant oneShot && calls == 1 ==> taken == if kernel(0, datalen).ret > 0 then kernel(0, datalen).ret else 0
      decreases going, if calls == 0 then 1 else 0, SOCK_TIMEOUT_TIME - (clock(calls) - clock(0)) + left
    {
      var a := kernel(calls, left);
      calls := calls + 1;
      if a.ret > 0 {
        forall i | taken <= i < taken + a.ret {
          dst[i] := stream(pos + i);
        }
        taken := taken + a.ret;
        left := left - a.ret;
        if left > 0 && !oneShot {
          retry := true;
        }
      } else if a.retryable {
        if !oneShot {
          retry := true;
        }
      } else {
        return a.ret, taken, calls;
      }
      if retry && TimedOut(clock, calls) {
        retry := false;
      }
      going := left > 0 && retry;
    }
    ret := AsInt(taken);
  }

  /**
   * A positive result is the number of bytes moved, as an int shows it: exactly that number as long as it fits,
   * which it does for every transfer of up to 2^32 bytes.
   */
  lemma PositiveResultIsCount(length: nat, ret: int, moved: nat, calls: nat, oneShot: bool, kernel: Kernel, clock: nat -> int)
    requires Outcome(length, ret, moved, calls, oneShot, kernel, clock) && ret > 0
    ensures ret == AsInt(moved) && (ret == moved <==> moved < 0x8000_0000)
    ensures length <= 0x1_0000_0000 ==> ret == moved
  {
  }

  /** One byte more and a complete transfer must report 1. */
  lemma LongTransferReportsOne(ret: int, calls: nat, oneShot: bool, kernel: Kernel, clock: nat -> int)
    requires Outcome(0x1_0000_0001, ret, 0x1_0000_0001, calls, oneShot, kernel, clock)
    ensures ret == 1
  {
  }

  /** A result equal to the length means all of it was moved, for every length. */
  lemma FullResultIsFull(length: nat, ret: int, moved: nat, calls: nat, oneShot: bool, kernel: Kernel, clock: nat -> int)
    requires Outcome(length, ret, moved, calls, oneShot, kernel, clock) && ret == length
    ensures moved == length
  {
  }

  // ---------------------------------------------------------------- messages

  function Flatten(ms: seq<seq<Byte>>): seq<Byte> {
    if ms == [] then [] else ms[0] + Flatten(ms[1..])
  }

  /** Each message was sent in full: its wire bytes are a prefix of it, and as many. */
  predicate SentInFull(ms: seq<seq<Byte>>, wires: seq<seq<Byte>>) {
    |wires| == |ms| && forall k :: 0 <= k < |ms| ==> wires[k] <= ms[k] && |wires[k]| == |ms[k]|
  }

  /** Receives of the same lengths, each complete, each starting where the one before ended. */
  predicate ReceivedInFull(stream: nat -> Byte, pos: nat, ms: seq<seq<Byte>>, bufs: seq<seq<Byte>>)
    decreases |ms|
  {
    && |bufs| == |ms|
    && (ms != [] ==>
          && bufs[0] == Slice(stream, pos, |ms[0]|)
          && ReceivedInFull(stream, pos + |ms[0]|, ms[1..], bufs[1..]))
  }

  /** Full sends followed by full receives of the same lengths reproduce the messages, however the bytes were cut. */
  lemma {:induction false} MessagesArrive(stream: nat -> Byte, pos: nat, ms: seq<seq<Byte>>, wires: seq<seq<Byte>>,
                                          bufs: seq<seq<Byte>>)
    requires SentInFull(ms, wires) && ReceivedInFull(stream, pos, ms, bufs)
    requires forall i :: 0 <= i < |Flatten(wires)| ==> stream(pos + i) == Flatten(wires)[i]
    ensures bufs == ms
    decreases |ms|
  {
    if ms != [] {
      assert wires[0] == ms[0];
      var flat, n := Flatten(wires), |ms[0]|;
      assert flat == ms[0] + Flatten(wires[1..]);
      assert bufs[0] == ms[0] by {
        assert forall i :: 0 <= i < n ==> bufs[0][i] == stream(pos + i) == flat[i] == ms[0][i];
      }
      forall i | 0 <= i < |Flatten(wires[1..])| ensures stream(pos + n + i) == Flatten(wires[1..])[i] {
        assert stream(pos + (n + i)) == flat[n + i];
      }
      MessagesArrive(stream, pos + n, ms[1..], wires[1..], bufs[1..]);
      assert bufs == [bufs[0]] + bufs[1..] && ms == [ms[0]] + ms[1..];
    } else {
      assert bufs == [];
    }
  }

  // ---------------------------------------------------------------- the loops over messages

  /** The environment of one call: what the kernel answers and what the clock shows. */
  datatype Env = Env(kernel: Kernel, clock: nat -> int)

  ghost predicate Sane(env: nat -> Env) {
    forall k: nat :: Posix(env(k).kernel) && Advances(env(k).kernel, env(k).clock)
  }

  /** Every call reported the length it was given. */
  predicate AllFull(rets: seq<int>, ms: seq<seq<Byte>>) {
    |rets| == |ms| && forall k :: 0 <= k < |ms| ==> rets[k] == |ms[k]|
  }

  /** Sends each message with one call. */
  method SendMessages(ms: seq<seq<Byte>>, env: nat -> Env) returns (rets: seq<int>, wires: seq<seq<Byte>>)
    requires Sane(env)
    ensures |rets| == |ms| && (AllFull(rets, ms) ==> SentInFull(ms, wires))
  {
    rets, wires := [], [];
    for k := 0 to |ms|
      invariant |wires| == |rets| == k
      invariant forall i :: 0 <= i < k ==> wires[i] <= ms[i] && (rets[i] == |ms[i]| ==> |wires[i]| == |ms[i]|)
    {
      var e := env(k);
      var ret, wire, calls := SockSend(true, ms[k], e.kernel, e.clock);
      if ret == |ms[k]| {
        FullResultIsFull(|ms[k]|, ret, |wire|, calls, false, e.kernel, e.clock);
      }
      rets, wires := rets + [ret], wires + [wire];
    }
  }

  /** Receives messages of the given lengths, one call and one buffer each, every call where the last one ended. */
  method ReceiveMessages(stream: nat -> Byte, pos: nat, ms: seq<seq<Byte>>, env: nat -> Env, first: nat)
    returns (rets: seq<int>, bufs: seq<seq<Byte>>)
    requires Sane(env)
    ensures |rets| == |ms| && (AllFull(rets, ms) ==> ReceivedInFull(stream, pos, ms, bufs))
    decreases |ms|
  {
    if ms == [] {
      return [], [];
    }
    var e, n := env(first), |ms[0]|;
    var dst := new Byte[n](_ => 0);
    var ret, taken, calls := SockRecv(true, stream, pos, dst, n, false, e.kernel, e.clock);
    if ret == n {
      FullResultIsFull(n, ret, taken, calls, false, e.kernel, e.clock);
    }
    var buf := dst[..];
    assert taken == n ==> buf == dst[..taken];
    rets, bufs := ReceiveMessages(stream, pos + taken, ms[1..], env, first + 1);
    rets, bufs := [ret] + rets, [buf] + bufs;
    assert AllFull(rets, ms) ==> rets[0] == n && AllFull(rets[1..], ms[1..]);
  }

  /**
   * Messages sent over a channel and received at the other end: when every call of both loops reports the
   * length it was given, the buffers hold the messages, whatever the kernel's chunks were. Past the bytes sent
   * the channel may hold anything.
   */
  method Exchange(ms: seq<seq<Byte>>, sender: nat -> Env, receiver: nat -> Env, beyond: nat -> Byte)
    returns (sent: seq<int>, got: seq<int>, bufs: seq<seq<Byte>>)
    requires Sane(sender) && Sane(receiver)
    ensures |sent| == |got| == |ms|
    ensures AllFull(sent, ms) && AllFull(got, ms) ==> bufs == ms
  {
    var wires;
    sent, wires := SendMessages(ms, sender);
    var flat := Flatten(wires);
    var stream := (i: nat) => if i < |flat| then flat[i] else beyond(i);
    got, bufs := ReceiveMessages(stream, 0, ms, receiver, 0);
    if AllFull(sent, ms) && AllFull(got, ms) {
      MessagesArrive(stream, 0, ms, wires, bufs);
    }
  }
}
