/** udap_buffer_t: a region of memory with a stream position (udap/buffer.cpp). */
module Buffer {
  import opened Bytes

  /** What a sequence of writes that should append `enc` may leave behind.
      Either everything was appended, except that a buffer filled to the brim may
      have lost a byte to the terminator of vsnprintf; or the text did not fit
      and less than `chunk` bytes of room are left. */
  ghost predicate Appended(m0: bytes, c0: nat, m1: bytes, c1: nat, enc: bytes) {
    && |m1| == |m0| && c1 == c0 + |enc| <= |m1|
    && m1[..c0] == m0[..c0]
    && (m1[c0..c1] == enc || c1 == |m1|)
  }

  ghost predicate RanOut(m0: bytes, c0: nat, m1: bytes, c1: nat, enc: bytes, chunk: nat) {
    && |m1| == |m0| && c0 <= c1 <= |m1| && m1[..c0] == m0[..c0]
    && |m0| - c0 < |enc| && |m1| - c1 < chunk
  }

  /** A writer that reports truthfully whether its text was appended. */
  ghost predicate Wrote(m0: bytes, c0: nat, m1: bytes, c1: nat, enc: bytes, chunk: nat, ok: bool) {
    if ok then Appended(m0, c0, m1, c1, enc) else RanOut(m0, c0, m1, c1, enc, chunk)
  }

  lemma AppendedTwice(m0: bytes, c0: nat, m1: bytes, c1: nat, m2: bytes, c2: nat, e1: bytes, e2: bytes)
    requires Appended(m0, c0, m1, c1, e1) && Appended(m1, c1, m2, c2, e2)
    ensures Appended(m0, c0, m2, c2, e1 + e2)
    ensures |e2| > 0 && m2[c1..c2] == e2 ==> m2[c0..c2] == e1 + e2
  {
    assert m2[..c0] == m2[..c1][..c0] && m1[..c0] == m1[..c1][..c0];
    assert m2[c0..c1] == m2[..c1][c0..] && m1[c0..c1] == m1[..c1][c0..];
    assert m2[c0..c2] == m2[c0..c1] + m2[c1..c2];
  }

  lemma AppendedThenRanOut(m0: bytes, c0: nat, m1: bytes, c1: nat, m2: bytes, c2: nat, e1: bytes, e2: bytes, chunk: nat)
    requires Appended(m0, c0, m1, c1, e1) && RanOut(m1, c1, m2, c2, e2, chunk)
    ensures RanOut(m0, c0, m2, c2, e1 + e2, chunk)
  {
    assert m2[..c0] == m2[..c1][..c0] && m1[..c0] == m1[..c1][..c0];
  }

  /** One writer after another. */
  lemma WroteBoth(m0: bytes, c0: nat, m1: bytes, c1: nat, m2: bytes, c2: nat, e1: bytes, e2: bytes, chunk: nat, ok: bool)
    requires Wrote(m0, c0, m1, c1, e1, chunk, true) && Wrote(m1, c1, m2, c2, e2, chunk, ok)
    ensures Wrote(m0, c0, m2, c2, e1 + e2, chunk, ok)
  {
    if ok {
      AppendedTwice(m0, c0, m1, c1, m2, c2, e1, e2);
    } else {
      AppendedThenRanOut(m0, c0, m1, c1, m2, c2, e1, e2, chunk);
    }
  }

  /** One more writer towards `whole`; a failure now is a failure of the whole. */
  lemma WroteNext(m0: bytes, c0: nat, m1: bytes, c1: nat, m2: bytes, c2: nat, e1: bytes, e2: bytes,
                  whole: bytes, chunk: nat, ok: bool)
    requires Wrote(m0, c0, m1, c1, e1, chunk, true) && Wrote(m1, c1, m2, c2, e2, chunk, ok)
    requires |e1| + |e2| <= |whole|
    ensures Wrote(m0, c0, m2, c2, e1 + e2, chunk, ok)
    ensures !ok ==> RanOut(m0, c0, m2, c2, whole, chunk)
  {
    WroteBoth(m0, c0, m1, c1, m2, c2, e1, e2, chunk, ok);
  }

  /** One more element of a list: `one` after `prev`, on the way to `whole`. */
  lemma WroteElement(m0: bytes, c0: nat, m1: bytes, c1: nat, m2: bytes, c2: nat, prev: bytes, one: bytes,
                     next: bytes, whole: bytes, chunk: nat, ok: bool)
    requires Wrote(m0, c0, m1, c1, prev, chunk, true) && Wrote(m1, c1, m2, c2, one, chunk, ok)
    requires next == prev + one && |next| <= |whole|
    ensures Wrote(m0, c0, m2, c2, next, chunk, ok)
    ensures !ok ==> Wrote(m0, c0, m2, c2, whole, chunk, false)
  {
    WroteBoth(m0, c0, m1, c1, m2, c2, prev, one, chunk, ok);
  }

  /** What vsnprintf leaves at the stream position: as much of the text as fits
      in front of a terminator. */
  function Formatted(mem: bytes, cur: nat, text: bytes): (r: bytes)
    requires cur <= |mem|
    ensures |r| == |mem| && r[..cur] == mem[..cur]
    ensures cur + |text| < |mem| ==> r[cur..cur + |text|] == text
  {
    var left := |mem| - cur;
    if left == 0 then mem
    else
      var n := if |text| < left then |text| else left - 1;
      mem[..cur] + text[..n] + [0] + mem[cur + n + 1..]
  }

  class Buffer {
    const mem: array<byte>
    var cur: nat

    ghost predicate Valid()
      reads this
    {
      cur <= mem.Length
    }

    constructor (size: nat)
      ensures fresh(mem) && mem.Length == size && cur == 0
    {
      mem := new byte[size](_ => 0);
      cur := 0;
    }

    /** A buffer over memory that exists already. */
    constructor Over(a: array<byte>, at: nat)
      requires at <= a.Length
      ensures Valid() && mem == a && cur == at
    {
      mem, cur := a, at;
    }

    function SizeLeft(): (n: nat)
      reads this
    {
      if cur > mem.Length then 0 else mem.Length - cur
    }

    /** Overwrites the memory as a whole; the only place where bytes change. */
    method Store(image: bytes)
      requires |image| == mem.Length
      modifies mem
      ensures mem[..] == image
    {
      forall i | 0 <= i < mem.Length {
        mem[i] := image[i];
      }
    }

    /** udap_buffer_writef with the formatted text: an exact fit is reported as
        success although its last byte became the terminator. */
    method WriteF(text: bytes) returns (ok: bool)
      requires Valid() && |text| > 0
      modifies this, mem
      ensures Valid() && ok == (|text| <= old(SizeLeft()))
      ensures Wrote(old(mem[..]), old(cur), mem[..], cur, text, |text|, ok)
      ensures ok && |text| == old(SizeLeft()) ==> mem[..] == old(mem[..])[..old(cur)] + text[..|text| - 1] + [0]
      ensures ok && |text| < old(SizeLeft()) ==>
                mem[..] == old(mem[..])[..old(cur)] + text + [0] + old(mem[..])[old(cur) + |text| + 1..]
    {
      var image := Formatted(mem[..], cur, text);
      var left := SizeLeft();
      Store(image);
      if left < |text| {
        return false;
      }
      cur := cur + |text|;
      return true;
    }

    /** udap_buffer_write. */
    method Write(data: bytes) returns (ok: bool)
      requires Valid()
      modifies this, mem
      ensures Valid() && ok == (|data| <= old(SizeLeft()))
      ensures Wrote(old(mem[..]), old(cur), mem[..], cur, data, |data|, ok)
      ensures ok ==> mem[old(cur)..cur] == data
    {
      if SizeLeft() < |data| {
        return false;
      }
      var image := mem[..cur] + data + mem[cur + |data|..];
      Store(image);
      assert image[cur..cur + |data|] == data;
      assert image[..cur] == old(mem[..])[..cur];
      cur := cur + |data|;
      return true;
    }
  }
}
