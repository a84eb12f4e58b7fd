/** Buffered input (lzio.c): a reader hands out blocks, of any sizes, and the bytes are read one after the other. */
module DmpZio {
  import opened ByteStrings
  import opened DmpProto

  const EOZ: int := -1

  function Flatten(blocks: seq<Bytes>): Bytes {
    if blocks == [] then [] else blocks[0] + Flatten(blocks[1..])
  }

  class Zio {
    /** The blocks that the reader has still to return; after them it returns NULL. */
    var blocks: seq<Bytes>
    var buff: Bytes
    var p: nat
    var n: nat

    ghost predicate Valid()
      reads this
    {
      p + n <= |buff| && forall i :: 0 <= i < |blocks| ==> blocks[i] != []
    }

    /** All bytes still to come. */
    ghost function Content(): Bytes
      requires Valid()
      reads this
    {
      buff[p..p + n] + Flatten(blocks)
    }

    /** luaZ_init */
    constructor (blocks: seq<Bytes>)
      requires forall i :: 0 <= i < |blocks| ==> blocks[i] != []
      ensures Valid() && Content() == Flatten(blocks)
    {
      this.blocks := blocks;
      buff := [];
      p, n := 0, 0;
    }

    /** luaZ_fill: the first byte of the next block, which is taken from it */
    method Fill() returns (c: int)
      requires Valid() && n == 0
      modifies this
      ensures Valid() && (c == EOZ <==> old(Content()) == [])
      ensures c == EOZ ==> Content() == []
      ensures c != EOZ ==> p > 0 && old(Content()) == [buff[p - 1]] + Content() && c == buff[p - 1]
    {
      if blocks == [] {
        return EOZ;
      }
      ghost var b := blocks;
      buff := blocks[0];
      blocks := blocks[1..];
      n := |buff| - 1;
      p := 1;
      assert buff[0..1] + (buff[1..|buff|] + Flatten(blocks)) == buff + Flatten(blocks);
      return buff[0];
    }

    /** zgetc */
    method GetC() returns (c: int)
      requires Valid()
      modifies this
      ensures Valid() && EOZ <= c < 256
      ensures if old(Content()) == [] then c == EOZ && Content() == [] else c != EOZ
                                                                            && old(Content()) == [c] + Content()
    {
      if n > 0 {
        n := n - 1;
        c := buff[p];
        assert buff[p..p + n + 1] == [buff[p]] + buff[p + 1..p + n + 1];
        p := p + 1;
        assert old(Content()) == [c] + Content();
      } else {
        c := Fill();
      }
    }

    /** luaZ_lookahead */
    method Lookahead() returns (c: int)
      requires Valid()
      modifies this
      ensures Valid() && Content() == old(Content())
      ensures if Content() == [] then c == EOZ else n > 0 && c == Content()[0]
    {
      if n == 0 {
        var f := Fill();
        if f == EOZ {
          return EOZ;
        }
        ghost var after := Content();
        n := n + 1;
        p := p - 1;
        assert buff[p..p + n] == [buff[p]] + buff[p + 1..p + n];
        assert Content() == [buff[p]] + after;
      }
      return buff[p];
    }

    /** luaZ_read: `missing` bytes could not be read */
    method Read(size: nat) returns (missing: nat, b: Bytes)
      requires Valid()
      modifies this
      ensures Valid() && old(Content()) == b + Content() && |b| + missing == size
      ensures missing > 0 ==> Content() == []
    {
      b := [];
      missing := size;
      assert Content() == [] + Content();
      while missing > 0
        invariant Valid() && old(Content()) == b + Content() && |b| + missing == size
        decreases missing
      {
        var c := Lookahead();
        if c == EOZ {
          EozIsEnd(Content(), c);
          return;
        }
        var m := if missing <= n then missing else n;
        ghost var before := Content();
        var got := buff[p..p + m];
        n := n - m;
        p := p + m;
        assert before == got + Content() by {
          assert buff[p - m..p + n] == got + buff[p..p + n];
        }
        assert b + (got + Content()) == (b + got) + Content();
        b := b + got;
        missing := missing - m;
      }
    }
  }

  lemma EozIsEnd(content: Bytes, c: int)
    requires c == EOZ && (content != [] ==> c == content[0])
    ensures content == []
  {
  }
}
