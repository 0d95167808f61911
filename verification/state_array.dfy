/** The `state` argument of the toplevel-handle protocols: a byte array of
    32-bit enum values, read in whole 4-byte words (`chunks_exact(4)`) with
    `u32::from_ne_bytes`. The native byte order is a parameter. */
module StateArray {
  import opened Wrappers

  /** An octet of the wire array. */
  newtype byte = x: int | 0 <= x < 256

  datatype ByteOrder = LittleEndian | BigEndian

  /** Exclusive bound of a `u32`. */
  const WORD_LIMIT: nat := 0x1_0000_0000

  /** The `u32` value of one 4-byte word in the given byte order. */
  function WordValue(w: seq<byte>, order: ByteOrder): (v: nat)
    requires |w| == 4
    ensures v < WORD_LIMIT
  {
    var lo := if order == LittleEndian then w else [w[3], w[2], w[1], w[0]];
    lo[0] as int + 256 * (lo[1] as int + 256 * (lo[2] as int + 256 * (lo[3] as int)))
  }

  /** The 4 bytes that carry `v` in the given byte order; the inverse of
      `WordValue`. */
  function WordBytes(v: nat, order: ByteOrder): (w: seq<byte>)
    requires v < WORD_LIMIT
    ensures |w| == 4
    ensures WordValue(w, order) == v
  {
    var r1 := v / 256;
    var r2 := r1 / 256;
    var r3 := r2 / 256;
    SplitLowByte(v);
    SplitLowByte(r1);
    SplitLowByte(r2);
    var lo := [(v % 256) as byte, (r1 % 256) as byte, (r2 % 256) as byte, r3 as byte];
    if order == LittleEndian then lo else [lo[3], lo[2], lo[1], lo[0]]
  }

  lemma SplitLowByte(x: nat)
    ensures x == x % 256 + 256 * (x / 256)
  {
  }

  /** The whole words of `payload`, in order; a trailing partial word is
      dropped, as `chunks_exact(4)` drops it. */
  function Words(payload: seq<byte>, order: ByteOrder): (ws: seq<nat>)
    ensures |ws| == |payload| / 4
    ensures forall i :: 0 <= i < |ws| ==> ws[i] == WordValue(payload[4 * i .. 4 * i + 4], order)
    decreases |payload|
  {
    if |payload| < 4 then []
    else [WordValue(payload[..4], order)] + Words(payload[4..], order)
  }

  /** The payload that carries `ws`, one word after another. */
  function EncodeWords(ws: seq<nat>, order: ByteOrder): (payload: seq<byte>)
    requires forall i :: 0 <= i < |ws| ==> ws[i] < WORD_LIMIT
    ensures |payload| == 4 * |ws|
  {
    if |ws| == 0 then []
    else WordBytes(ws[0], order) + EncodeWords(ws[1..], order)
  }

  /** Encoding words and reading them back gives the same words. */
  lemma {:induction false} WordsOfEncodeWords(ws: seq<nat>, order: ByteOrder)
    requires forall i :: 0 <= i < |ws| ==> ws[i] < WORD_LIMIT
    ensures Words(EncodeWords(ws, order), order) == ws
  {
    if |ws| > 0 {
      var p := EncodeWords(ws, order);
      assert p[..4] == WordBytes(ws[0], order);
      assert p[4..] == EncodeWords(ws[1..], order);
      WordsOfEncodeWords(ws[1..], order);
    }
  }

  /** Reading a payload is reading its first whole words and then the rest:
      the words of a concatenation are the concatenation of the words. */
  lemma {:induction false} WordsAppend(p: seq<byte>, q: seq<byte>, order: ByteOrder)
    requires |p| % 4 == 0
    ensures Words(p + q, order) == Words(p, order) + Words(q, order)
    decreases |p|
  {
    if |p| > 0 {
      var rest := p[4..];
      assert (p + q)[..4] == p[..4];
      assert (p + q)[4..] == rest + q;
      WordsAppend(rest, q, order);
      assert Words(p + q, order) == [WordValue(p[..4], order)] + Words(rest + q, order);
      assert Words(p, order) == [WordValue(p[..4], order)] + Words(rest, order);
    }
  }

  /** Bytes after the last whole word never contribute a word. */
  lemma PartialWordIgnored(p: seq<byte>, tail: seq<byte>, order: ByteOrder)
    requires |p| % 4 == 0
    requires |tail| < 4
    ensures Words(p + tail, order) == Words(p, order)
  {
    WordsAppend(p, tail, order);
  }

  /** `tryFrom` accepts word `w` but converting the accepted value panics. */
  predicate Panics<W, S>(w: nat, tryFrom: nat -> Option<W>, from: W -> Result<S>)
  {
    tryFrom(w).Some? && from(tryFrom(w).value).Failure?
  }

  /** Word `w` is accepted by `tryFrom` and converts to `s`. */
  predicate Yields<W, S(==)>(w: nat, tryFrom: nat -> Option<W>, from: W -> Result<S>, s: S)
  {
    tryFrom(w).Some? && from(tryFrom(w).value) == Success(s)
  }

  /** The decoding loop shared by the protocols: each word goes through the
      protocol enum's `TryFrom<u32>` (`tryFrom`); a word it rejects is skipped
      and the loop goes on; an accepted value is converted by the `From` impl
      (`from`) and inserted into a set. A conversion that panics aborts the
      whole decoding. */
  function DecodeWords<W, S(==,!new)>(ws: seq<nat>, tryFrom: nat -> Option<W>, from: W -> Result<S>): (r: Result<set<S>>)
    ensures r.Failure? <==> exists i :: 0 <= i < |ws| && Panics(ws[i], tryFrom, from)
    ensures r.Failure? ==>
      exists i :: 0 <= i < |ws| && Panics(ws[i], tryFrom, from) && from(tryFrom(ws[i]).value) == Failure(r.panic)
    ensures r.Success? ==>
      forall s :: s in r.value <==> exists i :: 0 <= i < |ws| && Yields(ws[i], tryFrom, from, s)
  {
    if |ws| == 0 then Success({})
    else
      var rest := DecodeWords(ws[1..], tryFrom, from);
      assert forall i :: 1 <= i < |ws| ==> ws[i] == ws[1..][i - 1];
      match tryFrom(ws[0])
      case None => rest
      case Some(v) =>
        match from(v)
        case Failure(p) => Failure(p)
        case Success(s) => if rest.Failure? then rest else Success({s} + rest.value)
  }

  /** The decoded state is a set: it depends only on which words occur, not
      on their order or on how often each occurs. (Which panic an aborted
      decoding reports may depend on the order.) */
  lemma DecodeDependsOnlyOnWordSet<W, S(!new)>(ws: seq<nat>, vs: seq<nat>, tryFrom: nat -> Option<W>, from: W -> Result<S>)
    requires forall x :: x in ws <==> x in vs
    ensures DecodeWords(ws, tryFrom, from).Failure? <==> DecodeWords(vs, tryFrom, from).Failure?
    ensures DecodeWords(ws, tryFrom, from).Success? ==> DecodeWords(ws, tryFrom, from) == DecodeWords(vs, tryFrom, from)
  {
    var a := DecodeWords(ws, tryFrom, from);
    var b := DecodeWords(vs, tryFrom, from);
    assert a.Failure? <==> b.Failure? by {
      if a.Failure? {
        var i :| 0 <= i < |ws| && Panics(ws[i], tryFrom, from);
        assert ws[i] in vs;
        var j :| 0 <= j < |vs| && vs[j] == ws[i];
      }
      if b.Failure? {
        var j :| 0 <= j < |vs| && Panics(vs[j], tryFrom, from);
        assert vs[j] in ws;
        var i :| 0 <= i < |ws| && ws[i] == vs[j];
      }
    }
    if a.Success? {
      forall s
        ensures s in a.value <==> s in b.value
      {
        if s in a.value {
          var i :| 0 <= i < |ws| && Yields(ws[i], tryFrom, from, s);
          assert ws[i] in vs;
          var j :| 0 <= j < |vs| && vs[j] == ws[i];
        }
        if s in b.value {
          var j :| 0 <= j < |vs| && Yields(vs[j], tryFrom, from, s);
          assert vs[j] in ws;
          var i :| 0 <= i < |ws| && ws[i] == vs[j];
        }
      }
      assert a.value == b.value;
    }
  }
}
