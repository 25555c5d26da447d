/** The sliding replay window of src/security.c as a set of accepted counters. */
module Replay {
  /** The 32-bit window mask, least significant bit first. */
  type Mask = s: seq<bool> | |s| == 32 witness Clear(32)

  function Clear(n: nat): (s: seq<bool>)
    ensures |s| == n
  {
    seq(n, _ => false)
  }

  const EMPTY: Mask := Clear(32)

  function ShiftLeft(m: Mask, n: nat): Mask {
    seq(32, i requires 0 <= i < 32 => i >= n && m[i - n])
  }

  function SetBit(m: Mask, k: nat): Mask
    requires k < 32
  {
    m[k := true]
  }

  /** The receive state of a session. */
  datatype Window = Window(seen: bool, counter: nat, mask: Mask)

  const FRESH := Window(false, 0, EMPTY)

  /** The test in front of decryption. */
  predicate Rejects(w: Window, counter: nat) {
    w.seen && counter <= w.counter
    && (w.counter - counter >= 32 || w.mask[w.counter - counter])
  }

  /** The update behind a verified tag. */
  function Accept(w: Window, counter: nat): Window
    requires !Rejects(w, counter)
  {
    if !w.seen || counter > w.counter then
      var ahead := if w.seen then counter - w.counter else counter;
      Window(true, counter, if !w.seen || ahead >= 32 then SetBit(EMPTY, 0) else SetBit(ShiftLeft(w.mask, ahead), 0))
    else Window(true, w.counter, SetBit(w.mask, w.counter - counter))
  }

  /** The window represents a set of accepted counters: the largest one, and the 32 up to it. */
  predicate Represents(w: Window, accepted: set<nat>) {
    (w.seen <==> accepted != {})
    && (!w.seen ==> w == FRESH)
    && (w.seen ==> w.counter in accepted && forall c :: c in accepted ==> c <= w.counter)
    && forall i :: 0 <= i < 32 ==> (w.mask[i] <==> i <= w.counter && w.counter - i in accepted)
  }

  /** A counter is refused exactly when it was accepted before or lies 32 or more behind the
      largest accepted one: no counter twice, and nothing new inside the window refused. */
  lemma RejectsExactly(w: Window, accepted: set<nat>, counter: nat)
    requires Represents(w, accepted)
    ensures Rejects(w, counter) <==> counter in accepted || exists c :: c in accepted && counter + 32 <= c
  {
    if w.seen && counter + 32 <= w.counter {
      assert w.counter in accepted && counter + 32 <= w.counter;
    }
    if w.seen && w.counter - 32 < counter <= w.counter {
      var i := w.counter - counter;
      assert w.mask[i] <==> w.counter - i in accepted;
    }
  }

  lemma AcceptAdds(w: Window, accepted: set<nat>, counter: nat)
    requires Represents(w, accepted) && !Rejects(w, counter)
    ensures counter !in accepted && Represents(Accept(w, counter), accepted + {counter})
  {
    RejectsExactly(w, accepted, counter);
    var v := Accept(w, counter);
    forall i | 0 <= i < 32
      ensures v.mask[i] <==> i <= v.counter && v.counter - i in accepted + {counter}
    {
      if w.seen && counter > w.counter {
        var ahead := counter - w.counter;
        if ahead <= i {
          assert w.mask[i - ahead] <==> i - ahead <= w.counter && w.counter - (i - ahead) in accepted;
        }
      } else if w.seen {
        assert w.mask[i] <==> i <= w.counter && w.counter - i in accepted;
      }
    }
  }
}
