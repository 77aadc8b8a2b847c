/** Copies inside one memory, by blocks of words and then bytes, and the walk a transfer's two ends call for. */
module MemoriaOperor {
  import opened WordArithmetic

  /** Whole words. */
  predicate Whole(n: nat, w: nat)
    requires IsWidth(w)
  {
    n % w == 0
  }

  lemma {:induction false} WholeLess(n: nat, w: nat)
    requires IsWidth(w) && Whole(n, w) && n != 0
    ensures n >= w && Whole(n - w, w)
    ensures n >= 4 * w ==> Whole(n - 4 * w, w)
  {
  }

  lemma {:induction false} WholeRest(n: nat, w: nat)
    requires IsWidth(w)
    ensures n % w <= n && Whole(n - n % w, w)
  {
  }

  /** Memory with a span copied: every byte of the destination as the source held it before. */
  function Copied(m: seq<int>, dst: nat, src: nat, bytes: nat): seq<int>
    requires dst + bytes <= |m| && src + bytes <= |m|
  {
    seq(|m|, j requires 0 <= j < |m| => if dst <= j < dst + bytes then m[j - dst + src] else m[j])
  }

  /** One word carried: loaded whole, then stored. */
  method WordCarried(mem: array<int>, dst: nat, src: nat, w: nat)
    requires dst + w <= mem.Length && src + w <= mem.Length
    modifies mem
    ensures forall j :: dst <= j < dst + w ==> mem[j] == old(mem[j - dst + src])
    ensures forall j :: 0 <= j < mem.Length && !(dst <= j < dst + w) ==> mem[j] == old(mem[j])
  {
    forall i | 0 <= i < w {
      mem[dst + i] := mem[src + i];
    }
  }

  /** What an upward walk has done: a prefix of the destination holds the source's, and all above is as it was. */
  ghost predicate Risen(m: seq<int>, m': seq<int>, dst: nat, src: nat, done: nat) {
    && |m'| == |m| && dst + done <= |m| && src + done <= |m|
    && (forall j :: dst <= j < dst + done ==> m'[j] == m[j - dst + src])
    && (forall j :: 0 <= j < |m| && !(dst <= j < dst + done) ==> m'[j] == m[j])
  }

  /** One word more of an upward walk, whose source lies at or above its destination or wholly below it. */
  method Rises(mem: array<int>, dst: nat, src: nat, done: nat, w: nat, ghost m: seq<int>, ghost bytes: nat)
    requires Risen(m, mem[..], dst, src, done) && done + w <= bytes
    requires dst + bytes <= mem.Length && src + bytes <= mem.Length
    requires dst <= src || src + bytes <= dst
    modifies mem
    ensures Risen(m, mem[..], dst, src, done + w)
  {
    WordCarried(mem, dst + done, src + done, w);
  }

  /** Four words of an upward walk, one after another. */
  method RisesByFour(mem: array<int>, dst: nat, src: nat, done: nat, w: nat, ghost m: seq<int>, ghost bytes: nat)
    requires Risen(m, mem[..], dst, src, done) && done + 4 * w <= bytes
    requires dst + bytes <= mem.Length && src + bytes <= mem.Length
    requires dst <= src || src + bytes <= dst
    modifies mem
    ensures Risen(m, mem[..], dst, src, done + 4 * w)
  {
    hide Risen;
    Rises(mem, dst, src, done, w, m, bytes);
    Rises(mem, dst, src, done + w, w, m, bytes);
    Rises(mem, dst, src, done + 2 * w, w, m, bytes);
    Rises(mem, dst, src, done + 3 * w, w, m, bytes);
  }

  /** The copy that walks upward: four words a turn, then words, then bytes. */
  method Cpy(mem: array<int>, dst: nat, src: nat, bytes: nat, w: nat)
    requires IsWidth(w) && dst + bytes <= mem.Length && src + bytes <= mem.Length
    requires dst <= src || src + bytes <= dst
    modifies mem
    ensures mem[..] == Copied(old(mem[..]), dst, src, bytes)
  {
    hide Risen, Whole;
    ghost var m := mem[..];
    WholeRest(bytes, w);
    var tailBytes := bytes % w;
    var wordBytes: nat := bytes - tailBytes;
    var at: nat := 0;
    RisenNone(m, dst, src);
    while wordBytes >= 4 * w
      invariant at + wordBytes + tailBytes == bytes && Whole(wordBytes, w)
      invariant Risen(m, mem[..], dst, src, at)
      decreases wordBytes
    {
      WholeLess(wordBytes, w);
      RisesByFour(mem, dst, src, at, w, m, bytes);
      at := at + 4 * w;
      wordBytes := wordBytes - 4 * w;
    }
    while wordBytes != 0
      invariant at + wordBytes + tailBytes == bytes && Whole(wordBytes, w)
      invariant Risen(m, mem[..], dst, src, at)
      decreases wordBytes
    {
      WholeLess(wordBytes, w);
      Rises(mem, dst, src, at, w, m, bytes);
      at := at + w;
      wordBytes := wordBytes - w;
    }
    while tailBytes != 0
      invariant at + tailBytes == bytes && tailBytes >= 0 && Risen(m, mem[..], dst, src, at)
    {
      Rises(mem, dst, src, at, 1, m, bytes);
      at := at + 1;
      tailBytes := tailBytes - 1;
    }
    RisenAll(m, mem[..], dst, src, bytes);
  }

  lemma {:induction false} RisenNone(m: seq<int>, dst: nat, src: nat)
    requires dst <= |m| && src <= |m|
    ensures Risen(m, m, dst, src, 0)
  {
  }

  lemma {:induction false} RisenAll(m: seq<int>, m': seq<int>, dst: nat, src: nat, bytes: nat)
    requires Risen(m, m', dst, src, bytes)
    ensures dst + bytes <= |m| && src + bytes <= |m| && m' == Copied(m, dst, src, bytes)
  {
  }

  /** What a downward walk has done: from an offset on the destination holds the source's, and all below is as it
      was. */
  ghost predicate Fallen(m: seq<int>, m': seq<int>, dst: nat, src: nat, bytes: nat, left: nat) {
    && |m'| == |m| && dst + bytes <= |m| && src + bytes <= |m| && left <= bytes
    && (forall j :: dst + left <= j < dst + bytes ==> m'[j] == m[j - dst + src])
    && (forall j :: 0 <= j < |m| && !(dst + left <= j < dst + bytes) ==> m'[j] == m[j])
  }

  /** One word more of a downward walk, whose source lies at or below its destination or wholly above it. */
  method Falls(mem: array<int>, dst: nat, src: nat, bytes: nat, left: nat, w: nat, ghost m: seq<int>)
    requires Fallen(m, mem[..], dst, src, bytes, left) && w <= left
    requires src <= dst || dst + bytes <= src
    modifies mem
    ensures Fallen(m, mem[..], dst, src, bytes, left - w)
  {
    WordCarried(mem, dst + left - w, src + left - w, w);
  }

  /** Memory with one loaded word stored. */
  function Put(m: seq<int>, dst: nat, word: seq<int>): seq<int>
    requires dst + |word| <= |m|
  {
    seq(|m|, j requires 0 <= j < |m| => if dst <= j < dst + |word| then word[j - dst] else m[j])
  }

  method Stored(mem: array<int>, dst: nat, word: seq<int>)
    requires dst + |word| <= mem.Length
    modifies mem
    ensures mem[..] == Put(old(mem[..]), dst, word)
  {
    forall i | 0 <= i < |word| {
      mem[dst + i] := word[i];
    }
  }

  /** Four words stored from the highest down, each as it was loaded. */
  function FourPut(m: seq<int>, d: nat, s: nat, w: nat): seq<int>
    requires d + 4 * w <= |m| && s + 4 * w <= |m|
  {
    Put(Put(Put(Put(m, d + 3 * w, m[s + 3 * w..s + 4 * w]), d + 2 * w, m[s + 2 * w..s + 3 * w]),
            d + w, m[s + w..s + 2 * w]), d, m[s..s + w])
  }

  lemma {:induction false} PutAt(m: seq<int>, dst: nat, word: seq<int>, j: nat)
    requires dst + |word| <= |m| && j < |m|
    ensures |Put(m, dst, word)| == |m|
    ensures Put(m, dst, word)[j] == if dst <= j < dst + |word| then word[j - dst] else m[j]
  {
  }

  lemma {:induction false} FourPutAt(m: seq<int>, d: nat, s: nat, w: nat, j: nat)
    requires d + 4 * w <= |m| && s + 4 * w <= |m| && j < |m|
    ensures |FourPut(m, d, s, w)| == |m|
    ensures FourPut(m, d, s, w)[j] == if d <= j < d + 4 * w then m[j - d + s] else m[j]
  {
    hide Put;
    var a := Put(m, d + 3 * w, m[s + 3 * w..s + 4 * w]);
    PutAt(m, d + 3 * w, m[s + 3 * w..s + 4 * w], j);
    var b := Put(a, d + 2 * w, m[s + 2 * w..s + 3 * w]);
    PutAt(a, d + 2 * w, m[s + 2 * w..s + 3 * w], j);
    var c := Put(b, d + w, m[s + w..s + 2 * w]);
    PutAt(b, d + w, m[s + w..s + 2 * w], j);
    PutAt(c, d, m[s..s + w], j);
  }

  /** Four words of a downward walk, all loaded before any is stored. */
  method FallsByFour(mem: array<int>, dst: nat, src: nat, bytes: nat, left: nat, w: nat, ghost m: seq<int>)
    requires Fallen(m, mem[..], dst, src, bytes, left) && 4 * w <= left
    requires src <= dst || dst + bytes <= src
    modifies mem
    ensures Fallen(m, mem[..], dst, src, bytes, left - 4 * w)
  {
    hide Fallen, Put;
    FallenReads(m, mem[..], dst, src, bytes, left, 4 * w);
    ghost var was := mem[..];
    var d: nat, s: nat := dst + left - 4 * w, src + left - 4 * w;
    var three := mem[s + 3 * w..s + 4 * w];
    var two := mem[s + 2 * w..s + 3 * w];
    var one := mem[s + w..s + 2 * w];
    var zero := mem[s..s + w];
    Stored(mem, d + 3 * w, three);
    Stored(mem, d + 2 * w, two);
    Stored(mem, d + w, one);
    Stored(mem, d, zero);
    FallenByFour(m, was, dst, src, bytes, left, w, d, s);
  }

  lemma {:induction false} FallenByFour(m: seq<int>, was: seq<int>, dst: nat, src: nat, bytes: nat, left: nat, w: nat,
                                        d: nat, s: nat)
    requires Fallen(m, was, dst, src, bytes, left) && 4 * w <= left
    requires src <= dst || dst + bytes <= src
    requires d == dst + left - 4 * w && s == src + left - 4 * w
    ensures d + 4 * w <= |was| && s + 4 * w <= |was|
    ensures Fallen(m, FourPut(was, d, s, w), dst, src, bytes, left - 4 * w)
  {
    hide Fallen, FourPut;
    FallenReads(m, was, dst, src, bytes, left, 4 * w);
    if |was| > 0 {
      FourPutAt(was, d, s, w, 0);
    } else {
      FourPutNone(was, d, s, w);
    }
    var m' := FourPut(was, d, s, w);
    forall j | 0 <= j < |was|
      ensures dst + left - 4 * w <= j < dst + left ==> m'[j] == was[j - dst + src]
      ensures !(dst + left - 4 * w <= j < dst + left) ==> m'[j] == was[j]
    {
      FourPutAt(was, d, s, w, j);
    }
    FallenMore(m, was, m', dst, src, bytes, left, 4 * w);
  }

  lemma {:induction false} FourPutNone(m: seq<int>, d: nat, s: nat, w: nat)
    requires d + 4 * w <= |m| == 0 && s + 4 * w <= |m|
    ensures |FourPut(m, d, s, w)| == 0
  {
  }

  lemma {:induction false} FallenReads(m: seq<int>, m': seq<int>, dst: nat, src: nat, bytes: nat, left: nat, n: nat)
    requires Fallen(m, m', dst, src, bytes, left) && n <= left
    ensures |m'| == |m| && dst + bytes <= |m| && src + bytes <= |m| && left <= bytes
  {
  }

  /** A block stored below what a downward walk has done carries the walk on, the block read before it was stored. */
  lemma {:induction false} FallenMore(m: seq<int>, was: seq<int>, m': seq<int>, dst: nat, src: nat, bytes: nat,
                                      left: nat,
                                      n: nat)
    requires Fallen(m, was, dst, src, bytes, left) && n <= left && |m'| == |was|
    requires src <= dst || dst + bytes <= src
    requires forall j :: dst + left - n <= j < dst + left ==> m'[j] == was[j - dst + src]
    requires forall j :: 0 <= j < |m'| && !(dst + left - n <= j < dst + left) ==> m'[j] == was[j]
    ensures Fallen(m, m', dst, src, bytes, left - n)
  {
  }

  /** The copy that walks downward from the far end: the odd bytes first, then four words a turn, then words. */
  method MoveUp(mem: array<int>, dst: nat, src: nat, bytes: nat, w: nat)
    requires IsWidth(w) && dst + bytes <= mem.Length && src + bytes <= mem.Length
    requires src <= dst || dst + bytes <= src
    modifies mem
    ensures mem[..] == Copied(old(mem[..]), dst, src, bytes)
  {
    hide Fallen, Whole;
    ghost var m := mem[..];
    WholeRest(bytes, w);
    var tailBytes := bytes % w;
    var wordBytes: nat := bytes - tailBytes;
    FallenNone(m, dst, src, bytes);
    while tailBytes != 0
      invariant tailBytes >= 0 && Fallen(m, mem[..], dst, src, bytes, wordBytes + tailBytes)
      decreases tailBytes
    {
      Falls(mem, dst, src, bytes, wordBytes + tailBytes, 1, m);
      tailBytes := tailBytes - 1;
    }
    while wordBytes >= 4 * w
      invariant Whole(wordBytes, w) && Fallen(m, mem[..], dst, src, bytes, wordBytes)
      decreases wordBytes
    {
      WholeLess(wordBytes, w);
      FallsByFour(mem, dst, src, bytes, wordBytes, w, m);
      wordBytes := wordBytes - 4 * w;
    }
    while wordBytes != 0
      invariant Whole(wordBytes, w) && Fallen(m, mem[..], dst, src, bytes, wordBytes)
      decreases wordBytes
    {
      WholeLess(wordBytes, w);
      Falls(mem, dst, src, bytes, wordBytes, w, m);
      wordBytes := wordBytes - w;
    }
    FallenAll(m, mem[..], dst, src, bytes);
  }

  lemma {:induction false} FallenNone(m: seq<int>, dst: nat, src: nat, bytes: nat)
    requires dst + bytes <= |m| && src + bytes <= |m|
    ensures Fallen(m, m, dst, src, bytes, bytes)
  {
  }

  lemma {:induction false} FallenAll(m: seq<int>, m': seq<int>, dst: nat, src: nat, bytes: nat)
    requires Fallen(m, m', dst, src, bytes, 0)
    ensures dst + bytes <= |m| && src + bytes <= |m| && m' == Copied(m, dst, src, bytes)
  {
  }

  /** The move that tolerates any overlap: the walk picked by the two addresses. */
  method ShimMove(mem: array<int>, dest: nat, source: nat, bytes: nat, w: nat)
    requires IsWidth(w) && dest + bytes <= mem.Length && source + bytes <= mem.Length
    modifies mem
    ensures mem[..] == Copied(old(mem[..]), dest, source, bytes)
  {
    if dest <= source {
      Cpy(mem, dest, source, bytes, w);
    } else {
      MoveUp(mem, dest, source, bytes, w);
    }
  }
}
