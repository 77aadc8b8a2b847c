/** The table of slots: one bit a slot in whole words, claimed by the lowest free bit of the first word with one. */
module CarcerSlots {
  import opened BitCounts

  const CLAIM_BITS: nat := 64

  predicate IsSet(word: bv64, k: nat) {
    Meets(word, Bit(k))
  }

  function Or(a: bv64, b: bv64): bv64 {
    a | b
  }

  function AndNot(a: bv64, b: bv64): bv64 {
    a & !b
  }

  function Not(a: bv64): bv64 {
    !a
  }

  /** A bit set or cleared moves no other. */
  lemma {:induction false} SetBit(word: bv64, k: nat, j: nat)
    requires k < CLAIM_BITS && j < CLAIM_BITS
    ensures IsSet(Or(word, Bit(k)), j) <==> IsSet(word, j) || j == k
    ensures IsSet(AndNot(word, Bit(k)), j) <==> IsSet(word, j) && j != k
  {
    hide Bit, IsBit, Meets, Or, AndNot;
    BitPlace(j);
    BitPlace(k);
    if j == k {
      SameBit(word, Bit(k));
    } else {
      OtherBit(word, Bit(k), Bit(j));
    }
  }

  lemma {:induction false} SameBit(w: bv64, b: bv64)
    requires IsBit(b)
    ensures Meets(Or(w, b), b) && !Meets(AndNot(w, b), b)
  {
  }

  lemma {:induction false} OtherBit(w: bv64, a: bv64, b: bv64)
    requires IsBit(a) && IsBit(b) && Trail(a) != Trail(b)
    ensures Meets(Or(w, a), b) <==> Meets(w, b)
    ensures Meets(AndNot(w, a), b) <==> Meets(w, b)
  {
    hide Trail;
    BitsMeet(a, b);
  }

  /** The trailing count of a word's complement names its lowest free bit, where it has one. */
  lemma {:induction false} FreeBit(word: bv64)
    requires Not(word) != 0
    ensures Trail(Not(word)) < CLAIM_BITS && !IsSet(word, Trail(Not(word))) && Low(Not(word)) == Bit(Trail(Not(word)))
    ensures forall j: nat :: j < Trail(Not(word)) ==> IsSet(word, j)
  {
    hide Bit, Trail, Low, IsBit, Meets, Not;
    TrailNames(Not(word));
    TrailMeets(Not(word));
    BitPlace(Trail(Not(word)));
    Complement(word, Bit(Trail(Not(word))));
    forall j: nat | j < Trail(Not(word)) ensures IsSet(word, j) {
      TrailLeast(Not(word), j);
      BitPlace(j);
      Complement(word, Bit(j));
    }
  }

  lemma {:induction false} FullWord(word: bv64, j: nat)
    requires Not(word) == 0 && j < CLAIM_BITS
    ensures IsSet(word, j)
  {
    hide Bit, IsBit, Meets;
    BitPlace(j);
    Complement(word, Bit(j));
    NothingMeets(Bit(j));
  }

  lemma {:induction false} NothingMeets(b: bv64)
    ensures !Meets(0, b)
  {
  }

  lemma {:induction false} Complement(word: bv64, b: bv64)
    requires IsBit(b)
    ensures Meets(word, b) <==> !Meets(Not(word), b)
  {
  }

  /** Whether the slot at a bit's place names a cell, or there is none. */
  predicate Names(slots: seq<int>, w: int, k: int) {
    var p := w * CLAIM_BITS + k;
    p >= |slots| || (0 <= p && slots[p] != 0)
  }

  /** Bit and slot agree at every place, and a place that has no slot reads as taken. */
  ghost predicate Matched(slots: seq<int>, words: seq<bv64>) {
    && |slots| <= |words| * CLAIM_BITS
    && forall w, k :: 0 <= w < |words| && 0 <= k < CLAIM_BITS ==> (IsSet(words[w], k) <==> Names(slots, w, k))
  }

  lemma {:induction false} ClaimMatches(slots: seq<int>, words: seq<bv64>, p: nat, payload: int)
    requires Matched(slots, words) && p < |slots| && payload != 0
    ensures p / CLAIM_BITS < |words|
    ensures Matched(slots[p := payload],
                    words[p / CLAIM_BITS := Or(words[p / CLAIM_BITS], Bit(p % CLAIM_BITS))])
  {
    hide IsSet, Or, Bit;
    var w := p / CLAIM_BITS;
    forall k: nat | k < CLAIM_BITS
      ensures IsSet(Or(words[w], Bit(p % CLAIM_BITS)), k) <==> IsSet(words[w], k) || k == p % CLAIM_BITS
    {
      SetBit(words[w], p % CLAIM_BITS, k);
    }
  }

  lemma {:induction false} GiveMatches(slots: seq<int>, words: seq<bv64>, p: nat)
    requires Matched(slots, words) && p < |slots|
    ensures p / CLAIM_BITS < |words|
    ensures Matched(slots[p := 0],
                    words[p / CLAIM_BITS := AndNot(words[p / CLAIM_BITS], Bit(p % CLAIM_BITS))])
  {
    hide IsSet, AndNot, Bit;
    var w := p / CLAIM_BITS;
    forall k: nat | k < CLAIM_BITS
      ensures IsSet(AndNot(words[w], Bit(p % CLAIM_BITS)), k) <==> IsSet(words[w], k) && k != p % CLAIM_BITS
    {
      SetBit(words[w], p % CLAIM_BITS, k);
    }
  }

  /** A word with no free bit names a cell in each of its slots. */
  lemma {:induction false} FullNames(slots: seq<int>, words: seq<bv64>, p: nat)
    requires Matched(slots, words) && p < |slots|
    ensures p / CLAIM_BITS < |words| && (Not(words[p / CLAIM_BITS]) == 0 ==> slots[p] != 0)
  {
    hide IsSet, Not;
    var w := p / CLAIM_BITS;
    if Not(words[w]) == 0 {
      FullWord(words[w], p % CLAIM_BITS);
      assert Names(slots, w, p % CLAIM_BITS);
    }
  }

  /** The lowest free bit of a word with one is the place of a slot that names no cell, and the lowest such there. */
  lemma {:induction false} FreeNames(slots: seq<int>, words: seq<bv64>, w: nat) returns (p: nat)
    requires Matched(slots, words) && w < |words| && Not(words[w]) != 0
    ensures p == w * CLAIM_BITS + Trail(Low(Not(words[w]))) && p / CLAIM_BITS == w
    ensures p < |slots| && slots[p] == 0 && Low(Not(words[w])) == Bit(p % CLAIM_BITS)
    ensures forall q :: w * CLAIM_BITS <= q < p ==> slots[q] != 0
  {
    hide IsSet, Not, Trail, Low, Bit;
    FreeBit(words[w]);
    LowTrails(Not(words[w]));
    var k := Trail(Not(words[w]));
    p := w * CLAIM_BITS + k;
    assert !Names(slots, w, k);
    forall q | w * CLAIM_BITS <= q < p ensures slots[q] != 0 {
      assert Names(slots, w, q - w * CLAIM_BITS);
    }
  }

  lemma {:induction false} LowOfNone(v: bv64)
    ensures Low(v) == 0 <==> v == 0
  {
    if v != 0 {
      LowIsBit(v);
    }
  }

  class SlotTable {
    const slot: array<int>
    const claimed: array<bv64>
    /** The word of the claim bits a search starts at. */
    var lowest: nat
    /** One past the highest slot ever named. */
    var named: nat

    /** A table of the slots and claim words given, no slot naming a cell. */
    constructor (slot: array<int>, claimed: array<bv64>)
      requires slot as object != claimed as object && claimed.Length >= 1 && Matched(slot[..], claimed[..])
      requires forall p :: 0 <= p < slot.Length ==> slot[p] == 0
      ensures Claims() && this.slot == slot && this.claimed == claimed
    {
      this.slot, this.claimed, lowest, named := slot, claimed, 0, 0;
    }

    ghost predicate Claims()
      reads this, slot, claimed
    {
      && slot as object != claimed as object && claimed.Length >= 1 && Matched(slot[..], claimed[..])
      && lowest < claimed.Length && named <= slot.Length
      && forall p :: named <= p < slot.Length ==> slot[p] == 0
    }

    /** Whether the search comes to one word before another: around the table from where it starts. */
    ghost predicate Earlier(w: nat, v: nat)
      reads this
    {
      if lowest <= v then lowest <= w < v else lowest <= w || w < v
    }

    /** The search: the first word from the start on, around the table, with a free bit. */
    method FreeFound() returns (got: bool, atWord: nat)
      requires Claims()
      ensures atWord < claimed.Length && (got <==> Not(claimed[atWord]) != 0)
      ensures !got ==> forall w :: 0 <= w < claimed.Length ==> Not(claimed[w]) == 0
      ensures got ==> forall w :: 0 <= w < claimed.Length && Earlier(w, atWord) ==> Not(claimed[w]) == 0
    {
      hide Matched, Not;
      var words, from := claimed.Length, lowest;
      got, atWord := false, 0;
      var tried := 0;
      while tried < words
        invariant 0 <= tried <= words && atWord < words
        invariant got ==> Not(claimed[atWord]) != 0
        invariant got ==> forall w :: 0 <= w < words && Earlier(w, atWord) ==> Not(claimed[w]) == 0
        invariant !got ==> (
          && atWord == 0
          && forall w :: 0 <= w < words && (from <= w < from + tried || w < from + tried - words) ==>
              Not(claimed[w]) == 0)
      {
        var reached := from + tried;
        var place := if reached >= words then reached - words else reached;
        var has := Not(claimed[place]) != 0;
        atWord := if has && !got then place else atWord;
        got := got || has;
        tried := tried + 1;
      }
    }

    /** One claim: the lowest free bit of the word found set with one fetch-or, and its slot named. */
    method Claim(payload: int) returns (won: bool, index: nat)
      requires Claims() && payload != 0
      modifies this, slot, claimed
      ensures Claims()
      ensures won <==> exists p :: 0 <= p < slot.Length && old(slot[p]) == 0
      ensures won ==> (
        && index < slot.Length && old(slot[index]) == 0 && slot[..] == old(slot[..])[index := payload]
        && (forall p :: index / CLAIM_BITS * CLAIM_BITS <= p < index ==> old(slot[p]) != 0)
        && (forall p: nat :: p < slot.Length && old(Earlier(p / CLAIM_BITS, index / CLAIM_BITS)) ==> old(slot[p]) != 0)
        && lowest == index / CLAIM_BITS)
      ensures !won ==> slot[..] == old(slot[..]) && claimed[..] == old(claimed[..])
    {
      hide Matched, Not, Trail, Low, Or, Bit;
      var got, atWord := FreeFound();
      var free := Not(claimed[atWord]);
      var bit := Low(free);
      LowOfNone(free);
      won := bit != 0;
      var place := CarcerLowest(bit);
      index := atWord * CLAIM_BITS + place;
      if won {
        ghost var p := FreeNames(slot[..], claimed[..], atWord);
        forall q: nat | q < slot.Length && Earlier(q / CLAIM_BITS, atWord) ensures slot[q] != 0 {
          FullNames(slot[..], claimed[..], q);
        }
        ClaimMatches(slot[..], claimed[..], p, payload);
        claimed[atWord] := Or(claimed[atWord], bit);
        slot[index] := payload;
        lowest := atWord;
        named := if index + 1 > named then index + 1 else named;
      } else {
        forall q | 0 <= q < slot.Length ensures slot[q] != 0 {
          FullNames(slot[..], claimed[..], q);
        }
      }
    }

    /** One slot emptied with its bit, and no later search begins past it. */
    method Give(index: nat)
      requires Claims() && index < slot.Length && slot[index] != 0
      modifies this, slot, claimed
      ensures Claims() && slot[..] == old(slot[..])[index := 0] && lowest <= index / CLAIM_BITS
    {
      hide Matched, AndNot, Bit;
      var word, place := index / CLAIM_BITS, index % CLAIM_BITS;
      GiveMatches(slot[..], claimed[..], index);
      slot[index] := 0;
      claimed[word] := AndNot(claimed[word], Bit(place));
      lowest := if word < lowest then word else lowest;
    }
  }
}
