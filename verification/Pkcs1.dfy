/**
 RSA encryption with PKCS #1 v1.5 padding, written out by hand in
 internal/syncengine/felicity_solar.go after section 7.2.1 of RFC 8017.
 The system's random source is a finite supply of bytes that may run dry.
 */
module Pkcs1 {
  import opened Options

  type Byte = b: int | 0 <= b < 256

  datatype EncryptError = MessageTooLong | RandomSourceFailed

  datatype PublicKey = PublicKey(n: nat, e: nat)

  // ---------- integers and octets ----------

  function Pow(b: int, e: nat): int {
    if e == 0 then 1 else b * Pow(b, e - 1)
  }

  /** The number of bits of `n`: the least `k` with n < 2^k. */
  function BitLen(n: nat): nat {
    if n == 0 then 0 else 1 + BitLen(n / 2)
  }

  /** big.Int.SetBytes: big-endian, OS2IP in RFC 8017. */
  function ToInteger(bytes: seq<Byte>): nat {
    if bytes == [] then 0 else 256 * ToInteger(bytes[..|bytes| - 1]) + bytes[|bytes| - 1]
  }

  /** big.Int.FillBytes into `k` octets, I2OSP in RFC 8017. */
  function ToBytes(x: nat, k: nat): (bytes: seq<Byte>)
    ensures |bytes| == k
  {
    if k == 0 then [] else ToBytes(x / 256, k - 1) + [x % 256]
  }

  /** The length of the modulus in octets. */
  function KeyBytes(key: PublicKey): nat {
    (BitLen(key.n) + 7) / 8
  }

  /** big.Int.Exp for a positive modulus. */
  function ModExp(m: nat, e: nat, n: nat): nat
    requires n > 0
  {
    PowNonNegative(m, e);
    Pow(m, e) % n
  }

  lemma {:induction false} PowNonNegative(b: nat, e: nat)
    ensures Pow(b, e) >= 0
  {
    if e > 0 {
      PowNonNegative(b, e - 1);
      assert b * Pow(b, e - 1) >= 0;
    }
  }

  // ---------- the padded block ----------

  predicate NonZero(ps: seq<Byte>) {
    forall i :: 0 <= i < |ps| ==> ps[i] != 0
  }

  /** 00 02 PS 00 M, with PS non-zero and at least eight octets. */
  predicate IsPadded(em: seq<Byte>, ps: seq<Byte>, msg: seq<Byte>) {
    em == [0, 2] + ps + [0] + msg && NonZero(ps) && |ps| >= 8
  }

  /** Section 7.2.2, step 3: find the separating zero, require the header and eight octets of padding. */
  function Unpad(em: seq<Byte>): Option<seq<Byte>> {
    if |em| < 11 || em[0] != 0 || em[1] != 2 then None
    else
      var z := FirstZero(em, 2);
      if z == |em| || z < 10 then None else Some(em[z + 1..])
  }

  function FirstZero(em: seq<Byte>, from: nat): (z: nat)
    requires from <= |em|
    ensures from <= z <= |em|
    ensures forall i :: from <= i < z ==> em[i] != 0
    ensures z < |em| ==> em[z] == 0
    decreases |em| - from
  {
    if from == |em| || em[from] == 0 then from else FirstZero(em, from + 1)
  }

  // ---------- the random source ----------

  /** The octet that replaces `b`: itself, or the next non-zero octet of the supply. */
  function Replacement(b: Byte, supply: seq<Byte>): (r: Option<(Byte, seq<Byte>)>)
    ensures r.Some? ==> r.value.0 != 0 && |r.value.1| <= |supply|
    decreases |supply|
  {
    if b != 0 then Some((b, supply))
    else if supply == [] then None
    else Replacement(supply[0], supply[1..])
  }

  /** `ps` after its first `i` octets have been made non-zero, and what is left of the supply. */
  function FirstFixed(ps: seq<Byte>, supply: seq<Byte>, i: nat): (r: Option<(seq<Byte>, seq<Byte>)>)
    requires i <= |ps|
    ensures r.Some? ==> |r.value.0| == |ps| && (forall j :: 0 <= j < i ==> r.value.0[j] != 0) && r.value.0[i..] == ps[i..]
  {
    if i == 0 then Some((ps, supply))
    else
      var before := FirstFixed(ps, supply, i - 1);
      if before.None? then None
      else
        var next := Replacement(ps[i - 1], before.value.1);
        if next.None? then None else Some((before.value.0[i - 1 := next.value.0], next.value.1))
  }

  /** The padding the source yields for `n` octets. */
  function PaddingFrom(supply: seq<Byte>, n: nat): (r: Option<(seq<Byte>, seq<Byte>)>)
    ensures r.Some? ==> |r.value.0| == n && NonZero(r.value.0)
  {
    if |supply| < n then None else FirstFixed(supply[..n], supply[n..], n)
  }

  // ---------- what the random source's octets become ----------

  /** The non-zero octets, in order. */
  function NonZeros(s: seq<Byte>): seq<Byte> {
    if s == [] then [] else (if s[0] != 0 then [s[0]] else []) + NonZeros(s[1..])
  }

  lemma {:induction false} NonZerosOfConcat(a: seq<Byte>, b: seq<Byte>)
    ensures NonZeros(a + b) == NonZeros(a) + NonZeros(b)
    decreases |a|
  {
    if a == [] {
      assert a + b == b;
    } else {
      assert (a + b)[1..] == a[1..] + b;
      NonZerosOfConcat(a[1..], b);
    }
  }

  /** What `out` holds, in order, at the first `i` places at which `was` is zero. */
  function AtZeros(was: seq<Byte>, out: seq<Byte>, i: nat): seq<Byte>
    requires i <= |was| == |out|
  {
    if i == 0 then [] else AtZeros(was, out, i - 1) + if was[i - 1] == 0 then [out[i - 1]] else []
  }

  lemma {:induction false} AtZerosOfPrefix(was: seq<Byte>, a: seq<Byte>, b: seq<Byte>, i: nat)
    requires i <= |was| == |a| == |b| && a[..i] == b[..i]
    ensures AtZeros(was, a, i) == AtZeros(was, b, i)
  {
    if i > 0 {
      assert a[..i][i - 1] == b[..i][i - 1] && a[..i - 1] == a[..i][..i - 1] && b[..i - 1] == b[..i][..i - 1];
      AtZerosOfPrefix(was, a, b, i - 1);
    }
  }

  /** A zero is replaced by the next non-zero octet of the supply, which is used up to there. */
  lemma {:induction false} ReplacementIsTheNextNonZero(supply: seq<Byte>)
    ensures Replacement(0, supply).Some? <==> NonZeros(supply) != []
    ensures Replacement(0, supply).Some? ==>
              var (v, rest) := Replacement(0, supply).value;
              && supply[|supply| - |rest|..] == rest
              && NonZeros(supply[..|supply| - |rest|]) == [v] && NonZeros(supply) == [v] + NonZeros(rest)
    decreases |supply|
  {
    if supply != [] {
      if supply[0] == 0 {
        ReplacementIsTheNextNonZero(supply[1..]);
        if Replacement(0, supply).Some? {
          var rest := Replacement(0, supply).value.1;
          assert supply[..|supply| - |rest|][1..] == supply[1..][..|supply| - 1 - |rest|];
        }
      } else {
        assert NonZeros(supply[..1]) == [supply[0]];
      }
    }
  }

  lemma {:induction false} FixedInOrder(ps: seq<Byte>, supply: seq<Byte>, i: nat)
    requires i <= |ps|
    ensures FirstFixed(ps, supply, i).Some? <==> |NonZeros(supply)| >= |AtZeros(ps, ps, i)|
    ensures FirstFixed(ps, supply, i).Some? ==> IsFixed(ps, supply, i, FirstFixed(ps, supply, i).value.0, FirstFixed(ps, supply, i).value.1)
    decreases i
  {
    if i > 0 {
      FixedInOrder(ps, supply, i - 1);
      var before := FirstFixed(ps, supply, i - 1);
      if before.Some? {
        var (mid, left) := before.value;
        SameZeros(ps, ps, mid, i - 1);
        ReplacementIsTheNextNonZero(left);
        hide NonZeros, Replacement, IsFixed;
        OneMoreFixed(ps, supply, i - 1, mid, left);
      }
    }
  }

  /** The first `i` octets fixed: the non-zero ones kept, the zero ones taken from the front of the supply's non-zero ones. */
  ghost predicate IsFixed(ps: seq<Byte>, supply: seq<Byte>, i: nat, out: seq<Byte>, rest: seq<Byte>) {
    && i <= |ps| == |out|
    && (forall j :: 0 <= j < i && ps[j] != 0 ==> out[j] == ps[j])
    && NonZeros(supply) == AtZeros(ps, out, i) + NonZeros(rest)
  }

  lemma OneMoreFixed(ps: seq<Byte>, supply: seq<Byte>, i: nat, mid: seq<Byte>, left: seq<Byte>)
    requires i < |ps| && IsFixed(ps, supply, i, mid, left)
    ensures Replacement(ps[i], left).Some? ==>
              IsFixed(ps, supply, i + 1, mid[i := Replacement(ps[i], left).value.0], Replacement(ps[i], left).value.1)
    ensures |NonZeros(supply)| == |AtZeros(ps, mid, i)| + |NonZeros(left)|
  {
    ReplacementIsTheNextNonZero(left);
    hide NonZeros;
    if Replacement(ps[i], left).Some? {
      var out := mid[i := Replacement(ps[i], left).value.0];
      AtZerosOfPrefix(ps, out, mid, i);
      assert ps[i] != 0 ==> Replacement(ps[i], left).value == (ps[i], left);
      hide Replacement;
    }
  }

  lemma {:induction false} SameZeros(was: seq<Byte>, a: seq<Byte>, b: seq<Byte>, i: nat)
    requires i <= |was| == |a| == |b|
    ensures |AtZeros(was, a, i)| == |AtZeros(was, b, i)|
  {
    if i > 0 {
      SameZeros(was, a, b, i - 1);
    }
  }

  /**
   The padding for `n` octets: non-zero octets of the first `n` supplied are kept in place
   and the zero ones are replaced, in order, by the non-zero octets that follow; it fails
   exactly when too few of either are left.
   */
  lemma PaddingKeepsNonZeros(supply: seq<Byte>, n: nat)
    ensures PaddingFrom(supply, n).Some? <==>
              |supply| >= n && |NonZeros(supply[n..])| >= |AtZeros(supply[..n], supply[..n], n)|
    ensures PaddingFrom(supply, n).Some? ==>
              var (ps, rest) := PaddingFrom(supply, n).value;
              && (forall j :: 0 <= j < n && supply[j] != 0 ==> ps[j] == supply[j])
              && NonZeros(supply[n..]) == AtZeros(supply[..n], ps, n) + NonZeros(rest)
  {
    if |supply| >= n {
      FixedInOrder(supply[..n], supply[n..], n);
    }
  }

  class RandomReader {
    var supply: seq<Byte>

    constructor (bytes: seq<Byte>)
      ensures supply == bytes
    {
      supply := bytes;
    }

    /** io.ReadFull into b[lo..hi]. */
    method ReadFull(b: array<Byte>, lo: nat, hi: nat) returns (ok: bool)
      requires lo <= hi <= b.Length
      modifies this, b
      ensures ok <==> |old(supply)| >= hi - lo
      ensures ok ==> b[..] == old(b[..lo]) + old(supply)[..hi - lo] + old(b[hi..]) && supply == old(supply)[hi - lo..]
    {
      if |supply| < hi - lo {
        return false;
      }
      ghost var was := b[..];
      forall i | lo <= i < hi {
        b[i] := supply[i - lo];
      }
      assert b[..] == was[..lo] + supply[..hi - lo] + was[hi..];
      supply := supply[hi - lo..];
      ok := true;
    }

    /** io.ReadFull into a single octet. */
    method ReadByte() returns (b: Option<Byte>)
      modifies this
      ensures b == if old(supply) == [] then None else Some(old(supply)[0])
      ensures old(supply) != [] ==> supply == old(supply)[1..]
    {
      if |supply| == 0 {
        return None;
      }
      b := Some(supply[0]);
      supply := supply[1..];
    }

    /** The inner loop of fillNonZeroRandom. */
    method ReplaceZero(b: Byte) returns (r: Option<Byte>)
      modifies this
      ensures r.Some? <==> Replacement(b, old(supply)).Some?
      ensures r.Some? ==> Replacement(b, old(supply)).value == (r.value, supply)
    {
      var v := b;
      while v == 0
        invariant Replacement(v, supply) == Replacement(b, old(supply))
        decreases |supply|
      {
        var single := ReadByte();
        if single.None? {
          return None;
        }
        v := single.value;
      }
      return Some(v);
    }

    /** fillNonZeroRandom on the slice em[lo..hi]. */
    method FillNonZeroRandom(em: array<Byte>, lo: nat, hi: nat) returns (ok: bool)
      requires lo <= hi <= em.Length
      modifies this, em
      ensures ok <==> PaddingFrom(old(supply), hi - lo).Some?
      ensures ok ==>
                && em[..] == old(em[..lo]) + PaddingFrom(old(supply), hi - lo).value.0 + old(em[hi..])
                && supply == PaddingFrom(old(supply), hi - lo).value.1
                && (forall i :: 0 <= i < hi - lo ==> em[lo + i] != 0 && (old(supply)[i] != 0 ==> em[lo + i] == old(supply)[i]))
    {
      hide Replacement, NonZeros, AtZeros;
      ghost var before, after := em[..lo], em[hi..];
      ok := ReadFull(em, lo, hi);
      if !ok {
        return;
      }
      ghost var ps, rest := em[lo..hi], supply;
      assert ps == old(supply)[..hi - lo];
      var i := 0;
      while i < hi - lo
        invariant 0 <= i <= hi - lo
        invariant FirstFixed(ps, rest, i) == Some((em[lo..hi], supply))
        invariant em[..lo] == before && em[hi..] == after
      {
        assert em[lo + i] == em[lo..hi][i] == em[lo..hi][i..][0] == ps[i];
        ghost var was := em[lo..hi];
        var v := ReplaceZero(em[lo + i]);
        if v.None? {
          FixedStops(ps, rest, i, hi - lo);
          return false;
        }
        em[lo + i] := v.value;
        assert em[lo..hi] == was[i := v.value];
        i := i + 1;
      }
      assert em[..] == em[..lo] + em[lo..hi] + em[hi..];
      PaddingKeepsNonZeros(old(supply), hi - lo);
      assert forall j :: 0 <= j < hi - lo ==> em[lo + j] == em[lo..hi][j];
    }
  }

  /** Once an octet cannot be replaced, the whole padding fails. */
  lemma {:induction false} FixedStops(ps: seq<Byte>, supply: seq<Byte>, i: nat, n: nat)
    requires i < n <= |ps|
    requires FirstFixed(ps, supply, i).Some? && Replacement(ps[i], FirstFixed(ps, supply, i).value.1).None?
    ensures FirstFixed(ps, supply, n).None?
  {
    if n > i + 1 {
      FixedStops(ps, supply, i, n - 1);
    }
  }

  // ---------- encryption ----------

  /** rsaEncryptPKCS1v15; `em` is the padded block it built. */
  method RsaEncryptPKCS1v15(key: PublicKey, msg: seq<Byte>, random: RandomReader)
      returns (r: Result<seq<Byte>, EncryptError>, ghost em: seq<Byte>)
    modifies random
    ensures r == Err(MessageTooLong) <==> |msg| > KeyBytes(key) - 11
    ensures |msg| <= KeyBytes(key) - 11 ==> (r.Ok? <==> PaddingFrom(old(random.supply), KeyBytes(key) - |msg| - 3).Some?)
    ensures r.Ok? ==>
              && key.n > 0
              && IsPadded(em, PaddingFrom(old(random.supply), KeyBytes(key) - |msg| - 3).value.0, msg)
              && |em| == KeyBytes(key) && |r.value| == KeyBytes(key)
              && ToInteger(em) < key.n
              && ToInteger(r.value) == ModExp(ToInteger(em), key.e, key.n)
  {
    em := [];
    var k := (BitLen(key.n) + 7) / 8;
    if |msg| > k - 11 {
      return Err(MessageTooLong), em;
    }
    var block := new Byte[k];
    block[0] := 0;
    block[1] := 2;
    var psEnd := k - |msg| - 1;
    var ok := random.FillNonZeroRandom(block, 2, psEnd);
    if !ok {
      return Err(RandomSourceFailed), em;
    }
    ghost var ps := PaddingFrom(old(random.supply), psEnd - 2).value.0;
    block[psEnd] := 0;
    forall i | 0 <= i < |msg| {
      block[psEnd + 1 + i] := msg[i];
    }
    assert block[..] == [0, 2] + ps + [0] + msg;
    em := block[..];
    BlockIsBelowModulus(em, key);
    var m := ToInteger(block[..]);
    var c := ModExp(m, key.e, key.n);
    var out := ToBytes(c, k);
    CiphertextFits(c, key);
    return Ok(out), em;
  }

  // ---------- sizes ----------

  lemma {:induction false} BitLenBounds(n: nat)
    requires n > 0
    ensures BitLen(n) >= 1 && Pow(2, BitLen(n) - 1) <= n < Pow(2, BitLen(n))
  {
    if n > 1 {
      BitLenBounds(n / 2);
      var k := BitLen(n / 2);
      assert Pow(2, k) == 2 * Pow(2, k - 1);
      assert Pow(2, k + 1) == 2 * Pow(2, k);
    } else {
      assert BitLen(1) == 1 + BitLen(0);
      assert Pow(2, 1) == 2 * Pow(2, 0);
    }
  }

  lemma {:induction false} PowAdds(a: nat, b: nat)
    ensures Pow(2, a + b) == Pow(2, a) * Pow(2, b)
    decreases b
  {
    if b > 0 {
      PowAdds(a, b - 1);
      assert Pow(2, a + b) == 2 * Pow(2, a + (b - 1));
    }
  }

  lemma {:induction false} PowMonotone(a: nat, b: nat)
    requires a <= b
    ensures 1 <= Pow(2, a) <= Pow(2, b)
    decreases b
  {
    if a < b {
      PowMonotone(a, b - 1);
    } else if a > 0 {
      PowMonotone(a - 1, a - 1);
    }
  }

  /** An octet string is below 256 to its length. */
  lemma {:induction false} IntegerBound(bytes: seq<Byte>)
    ensures ToInteger(bytes) < Pow(2, 8 * |bytes|)
    decreases |bytes|
  {
    if bytes != [] {
      var n := |bytes| - 1;
      IntegerBound(bytes[..n]);
      PowAdds(8 * n, 8);
      PowOfEight();
    }
  }

  lemma PowOfEight()
    ensures Pow(2, 8) == 256
  {
    assert Pow(2, 4) == 16 by {
      assert Pow(2, 2) == 4;
      PowAdds(2, 2);
    }
    PowAdds(4, 4);
  }

  lemma {:induction false} LeadingZero(bytes: seq<Byte>)
    requires bytes != [] && bytes[0] == 0
    ensures ToInteger(bytes) == ToInteger(bytes[1..])
    decreases |bytes|
  {
    if |bytes| > 1 {
      var n := |bytes| - 1;
      LeadingZero(bytes[..n]);
      assert bytes[1..][..n - 1] == bytes[..n][1..];
    }
  }

  /** The leading zero octet keeps the block below the modulus, for every key length. */
  lemma BlockIsBelowModulus(em: seq<Byte>, key: PublicKey)
    requires |em| == KeyBytes(key) >= 11 && em[0] == 0
    ensures key.n > 0 && ToInteger(em) < key.n
  {
    LeadingZero(em);
    IntegerBound(em[1..]);
    BitLenBounds(key.n);
    PowMonotone(8 * (|em| - 1), BitLen(key.n) - 1);
  }

  lemma {:induction false} BytesRoundTrip(x: nat, k: nat)
    requires x < Pow(2, 8 * k)
    ensures ToInteger(ToBytes(x, k)) == x
    decreases k
  {
    if k > 0 {
      PowAdds(8 * (k - 1), 8);
      PowOfEight();
      BytesRoundTrip(x / 256, k - 1);
      var bytes := ToBytes(x, k);
      assert bytes[..k - 1] == ToBytes(x / 256, k - 1);
    }
  }

  /** A residue of the modulus fits in as many octets as the modulus has. */
  lemma CiphertextFits(c: nat, key: PublicKey)
    requires key.n > 0 && c < key.n
    ensures ToInteger(ToBytes(c, KeyBytes(key))) == c
  {
    BitLenBounds(key.n);
    PowMonotone(BitLen(key.n), 8 * KeyBytes(key));
    BytesRoundTrip(c, KeyBytes(key));
  }

  // ---------- padding round trip ----------

  /** Removing the padding as in section 7.2.2 gives back exactly the message. */
  lemma UnpadInvertsPadding(em: seq<Byte>, ps: seq<Byte>, msg: seq<Byte>)
    requires IsPadded(em, ps, msg)
    ensures Unpad(em) == Some(msg)
  {
    assert em[2 + |ps|] == 0;
    assert forall i :: 2 <= i < 2 + |ps| ==> em[i] == ps[i - 2];
    assert FirstZero(em, 2) == 2 + |ps|;
    assert em[2 + |ps| + 1..] == msg;
  }

  /** And only padded blocks are accepted, so a block stands for at most one message. */
  lemma UnpadAcceptsOnlyPadding(em: seq<Byte>, msg: seq<Byte>)
    requires Unpad(em) == Some(msg)
    ensures IsPadded(em, em[2..FirstZero(em, 2)], msg)
  {
    var z := FirstZero(em, 2);
    assert em == em[..2] + em[2..z] + [em[z]] + em[z + 1..];
    assert em[..2] == [0, 2];
  }
}
