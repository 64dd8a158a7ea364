/** Bytes written to consecutive bus addresses, as the tape reader and the S-record loader do. */
module Bus {
  import opened Words

  /** The bus after bytes are written to consecutive addresses, in 32 bits. */
  function Put(m: map<word, byte>, a: word, bytes: seq<byte>): map<word, byte>
    decreases |bytes|
  {
    if bytes == [] then m else Put(m[a := bytes[0]], Wrap(a + 1), bytes[1..])
  }

  /** Where the bytes lie and that nothing else moved. */
  lemma {:induction false} PutIsOneCopy(m: map<word, byte>, a: word, bytes: seq<byte>, x: word)
    requires |bytes| <= W
    ensures var r, i := Put(m, a, bytes), (x - a) % W;
      if i < |bytes| then x in r && r[x] == bytes[i]
      else (x in r <==> x in m) && (x in m ==> r[x] == m[x])
    decreases |bytes|
  {
    if bytes != [] {
      PutIsOneCopy(m[a := bytes[0]], Wrap(a + 1), bytes[1..], x);
      Distance(a, x);
    }
  }

  lemma Distance(a: word, x: word)
    ensures (x - Wrap(a + 1)) % W == if x == a then W - 1 else (x - a) % W - 1
    ensures (x - a) % W == 0 <==> x == a
  {
  }

  lemma {:induction false} PutAppends(m: map<word, byte>, a: word, bytes: seq<byte>, c: byte)
    ensures Put(m, a, bytes + [c]) == Put(m, a, bytes)[Wrap(a + |bytes|) := c]
    decreases |bytes|
  {
    if bytes == [] {
      assert Put(m[a := c], Wrap(a + 1), []) == m[a := c];
    } else {
      assert (bytes + [c])[1..] == bytes[1..] + [c];
      PutAppends(m[a := bytes[0]], Wrap(a + 1), bytes[1..], c);
      WrapShift(a, |bytes| - 1);
    }
  }

  lemma WrapShift(a: int, n: int)
    ensures Wrap(Wrap(a + 1) + n) == Wrap(a + (n + 1))
  {
  }

  lemma PutNone(m: map<word, byte>, a: word)
    ensures Put(m, a, []) == m
  {
  }

  lemma {:induction false} PutJoins(m: map<word, byte>, a: word, x: seq<byte>, y: seq<byte>)
    ensures Put(Put(m, a, x), Wrap(a + |x|), y) == Put(m, a, x + y)
    decreases |x|
  {
    if x == [] {
      assert x + y == y;
    } else {
      assert (x + y)[1..] == x[1..] + y;
      PutJoins(m[a := x[0]], Wrap(a + 1), x[1..], y);
      WrapShift(a, |x| - 1);
    }
  }
}
