/** Reading a response body up to a cap. */
module CappedBody {
  import opened Wrappers

  datatype Frame = Data(bytes: string) | Trailers | Broken(message: string)

  /** The bytes that arrive before the body breaks or ends. */
  function Arriving(frames: seq<Frame>): string {
    if frames == [] || frames[0].Broken? then ""
    else (if frames[0].Data? then frames[0].bytes else "") + Arriving(frames[1..])
  }

  /** How the body breaks, if it does. */
  function Failing(frames: seq<Frame>): Option<string> {
    if frames == [] then None
    else if frames[0].Broken? then Some(frames[0].message)
    else Failing(frames[1..])
  }

  /** The first `cap` bytes; a failure counts only if it comes before there are as many. */
  function Capped(frames: seq<Frame>, cap: nat): Result<string, string> {
    if |Arriving(frames)| >= cap then Success(Arriving(frames)[..cap])
    else if Failing(frames).Some? then Failure(Failing(frames).value)
    else Success(Arriving(frames))
  }

  /** What the buffer holds and what is still to come make up the whole. */
  predicate Reading(buffer: string, rest: seq<Frame>, frames: seq<Frame>) {
    Arriving(frames) == buffer + Arriving(rest) && Failing(frames) == Failing(rest)
  }

  /** The loop's state: the reading goes on, or the buffer is full. */
  predicate Progress(buffer: string, rest: seq<Frame>, frames: seq<Frame>, cap: nat) {
    if |buffer| < cap then Reading(buffer, rest, frames)
    else |buffer| == cap && Capped(frames, cap) == Success(buffer)
  }

  lemma ReadToItsEnd(buffer: string, rest: seq<Frame>, frames: seq<Frame>, cap: nat)
    requires |buffer| < cap && Reading(buffer, rest, frames) && (rest == [] || rest[0].Broken?)
    ensures Capped(frames, cap) == if rest == [] then Success(buffer) else Failure(rest[0].message)
  {
    assert buffer + "" == buffer;
  }

  /** Bytes that fit go to the buffer; of those that do not, as many as there is room for. */
  lemma TakesWhatFits(buffer: string, bytes: string, rest: seq<Frame>, frames: seq<Frame>, cap: nat)
    requires |buffer| < cap && rest != [] && rest[0] == Data(bytes) && Reading(buffer, rest, frames)
    ensures if cap - |buffer| <= |bytes| then Progress(buffer + bytes[..cap - |buffer|], rest[1..], frames, cap)
            else Progress(buffer + bytes, rest[1..], frames, cap)
  {
    var later := Arriving(rest[1..]);
    assert Arriving(frames) == buffer + (bytes + later);
    if cap - |buffer| <= |bytes| {
      assert Arriving(frames)[..cap] == buffer + bytes[..cap - |buffer|];
    } else {
      assert Arriving(frames) == (buffer + bytes) + later;
    }
  }

  method ReadBodyCapped(frames: seq<Frame>, cap: nat) returns (result: Result<string, string>)
    ensures result == Capped(frames, cap)
  {
    var buffer := "";
    var rest := frames;
    assert "" + Arriving(frames) == Arriving(frames);
    while |buffer| < cap
      invariant Progress(buffer, rest, frames, cap)
      decreases |rest|
    {
      if rest == [] {
        ReadToItsEnd(buffer, rest, frames, cap);
        return Success(buffer);
      }
      match rest[0] {
        case Broken(message) =>
          ReadToItsEnd(buffer, rest, frames, cap);
          return Failure(message);
        case Trailers =>
          assert "" + Arriving(rest[1..]) == Arriving(rest[1..]);
        case Data(bytes) =>
          TakesWhatFits(buffer, bytes, rest, frames, cap);
          buffer := buffer + if cap - |buffer| <= |bytes| then bytes[..cap - |buffer|] else bytes;
      }
      rest := rest[1..];
    }
    return Success(buffer);
  }

  predicate Whole(frames: seq<Frame>) {
    Failing(frames).None?
  }

  lemma {:induction false} ArrivingConcat(a: seq<Frame>, b: seq<Frame>)
    requires Whole(a)
    ensures Arriving(a + b) == Arriving(a) + Arriving(b) && Failing(a + b) == Failing(b)
  {
    if a == [] {
      assert a + b == b;
    } else {
      assert (a + b)[1..] == a[1..] + b;
      ArrivingConcat(a[1..], b);
    }
  }

  /** How the bytes are cut into frames does not matter, and nothing after the cap does. */
  lemma FramingDoesNotMatter(a: seq<Frame>, b: seq<Frame>, restA: seq<Frame>, restB: seq<Frame>, cap: nat)
    requires Whole(a) && Whole(b) && Arriving(a) == Arriving(b)
    requires |Arriving(a)| >= cap || restA == restB
    ensures Capped(a + restA, cap) == Capped(b + restB, cap)
  {
    ArrivingConcat(a, restA);
    ArrivingConcat(b, restB);
    if |Arriving(a)| >= cap {
      assert (Arriving(a) + Arriving(restA))[..cap] == Arriving(a)[..cap] == (Arriving(b) + Arriving(restB))[..cap];
    }
  }

  // ----- Frame by frame -----

  /** One frame after the other: bytes count towards the cap and trailers do not; with bytes still wanted
      a failure is the result, and the end of the body is no failure. */
  lemma FrameByFrame(bytes: string, message: string, more: seq<Frame>, cap: nat)
    ensures Capped([Data(bytes)] + more, cap)
            == if cap <= |bytes| then Success(bytes[..cap])
               else if Capped(more, cap - |bytes|).Success? then Success(bytes + Capped(more, cap - |bytes|).value)
               else Capped(more, cap - |bytes|)
    ensures Capped([Trailers] + more, cap) == Capped(more, cap)
    ensures Capped([Broken(message)] + more, cap) == if cap == 0 then Success("") else Failure(message)
    ensures Capped([], cap) == Success("")
  {
    assert ([Data(bytes)] + more)[1..] == more;
    assert ([Trailers] + more)[1..] == more && "" + Arriving(more) == Arriving(more);
    var all := Arriving([Data(bytes)] + more);
    assert all == bytes + Arriving(more);
    if cap <= |bytes| {
      assert all[..cap] == bytes[..cap];
    } else if |all| >= cap {
      assert all[..cap] == bytes + Arriving(more)[..cap - |bytes|];
    }
  }
}
