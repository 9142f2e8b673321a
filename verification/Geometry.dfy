/**
 How a file is cut into blocks, and how block indices are dealt out to strided hash workers
 (src/hash_file.rs, src/client.rs). Block starts are defined by repeated addition so that the
 protocol proofs stay linear; `StartIsProduct` ties them to the source's multiplication.
 */
module Geometry {
  import opened Wire

  type pos = n: nat | 0 < n witness 1

  /** Block size and file size, as agreed in the handshake. */
  datatype Layout = Layout(bs: pos, size: nat)

  /** k * step, by repeated addition. */
  function Scale(step: nat, k: nat): nat {
    if k == 0 then 0 else Scale(step, k - 1) + step
  }

  function Start(l: Layout, k: nat): nat {
    Scale(l.bs, k)
  }

  lemma {:induction false} ScaleIsProduct(step: nat, k: nat)
    ensures Scale(step, k) == k * step
  {
    if k > 0 {
      ScaleIsProduct(step, k - 1);
    }
  }

  lemma StartIsProduct(l: Layout, k: nat)
    ensures Start(l, k) == k * l.bs
  {
    ScaleIsProduct(l.bs, k);
  }

  lemma {:induction false} ScaleAdd(step: nat, a: nat, b: nat)
    ensures Scale(step, a + b) == Scale(step, a) + Scale(step, b)
  {
    if b > 0 {
      ScaleAdd(step, a, b - 1);
    }
  }

  lemma StartMonotone(l: Layout, j: nat, k: nat)
    requires j < k
    ensures Start(l, j) + l.bs <= Start(l, k)
  {
    ScaleAdd(l.bs, j + 1, k - j - 1);
  }

  /** The length of the block that starts at `offset`: short only at the end of the file. */
  function LenAt(l: Layout, offset: nat): nat
    requires offset <= l.size
  {
    var rem := l.size - offset;
    if rem < l.bs then rem else l.bs
  }

  /** `div_ceil`. */
  function NumBlocks(l: Layout): nat {
    l.size / l.bs + if l.size % l.bs > 0 then 1 else 0
  }

  lemma DivisionByScale(a: nat, step: pos)
    ensures a == Scale(step, a / step) + a % step
  {
    ScaleIsProduct(step, a / step);
  }

  /** An index is a block of the file exactly when it lies below `div_ceil`. */
  lemma IndexInRange(l: Layout, k: nat)
    ensures k < NumBlocks(l) <==> Start(l, k) < l.size
  {
    DivisionByScale(l.size, l.bs);
    var q := l.size / l.bs;
    if k < q {
      StartMonotone(l, k, q);
    } else if k > q {
      StartMonotone(l, q, k);
    }
  }

  lemma LastBlockReachesEnd(l: Layout)
    ensures Start(l, NumBlocks(l)) >= l.size
  {
    IndexInRange(l, NumBlocks(l));
  }

  function End(l: Layout, k: nat): (e: nat)
    requires Start(l, k) <= l.size
    ensures Start(l, k) <= e <= l.size
  {
    Start(l, k) + LenAt(l, Start(l, k))
  }

  predicate InRange(l: Layout, k: nat) {
    Start(l, k) < l.size
  }

  function Block(l: Layout, f: Bytes, k: nat): (b: Bytes)
    requires |f| == l.size && InRange(l, k)
    ensures |b| == LenAt(l, Start(l, k)) > 0
  {
    f[Start(l, k)..End(l, k)]
  }

  /** `f` and `g` hold the same bytes in [a, b). */
  predicate Agree(f: Bytes, g: Bytes, a: nat, b: nat)
    requires b <= |f| && b <= |g|
  {
    forall i :: a <= i < b ==> f[i] == g[i]
  }

  predicate AgreeOnBlock(l: Layout, f: Bytes, g: Bytes, k: nat)
    requires |f| == |g| == l.size && InRange(l, k)
  {
    Agree(f, g, Start(l, k), End(l, k))
  }

  lemma AgreeIffSameBlock(l: Layout, f: Bytes, g: Bytes, k: nat)
    requires |f| == |g| == l.size && InRange(l, k)
    ensures AgreeOnBlock(l, f, g, k) <==> Block(l, f, k) == Block(l, g, k)
  {
    if Block(l, f, k) == Block(l, g, k) {
      forall i | Start(l, k) <= i < End(l, k)
        ensures f[i] == g[i]
      {
        assert f[i] == Block(l, f, k)[i - Start(l, k)];
        assert g[i] == Block(l, g, k)[i - Start(l, k)];
      }
    }
  }

  /** The blocks cover the file: files that agree on every block are equal, and conversely. */
  lemma BlocksCoverFile(l: Layout, f: Bytes, g: Bytes)
    requires |f| == |g| == l.size
    requires forall k: nat | InRange(l, k) :: AgreeOnBlock(l, f, g, k)
    ensures f == g
  {
    LastBlockReachesEnd(l);
    BlocksCoverPrefix(l, f, g, NumBlocks(l));
  }

  lemma {:induction false} BlocksCoverPrefix(l: Layout, f: Bytes, g: Bytes, n: nat)
    requires |f| == |g| == l.size
    requires forall k: nat | InRange(l, k) :: AgreeOnBlock(l, f, g, k)
    ensures forall i :: 0 <= i < l.size && i < Start(l, n) ==> f[i] == g[i]
  {
    if n > 0 {
      BlocksCoverPrefix(l, f, g, n - 1);
      if InRange(l, n - 1) {
        assert AgreeOnBlock(l, f, g, n - 1);
      }
    }
  }

  /** Distinct blocks never overlap. */
  lemma BlocksDisjoint(l: Layout, j: nat, k: nat)
    requires InRange(l, j) && InRange(l, k) && j != k
    ensures End(l, j) <= Start(l, k) || End(l, k) <= Start(l, j)
    ensures Start(l, j) != Start(l, k)
  {
    if j < k { StartMonotone(l, j, k); } else { StartMonotone(l, k, j); }
  }

  /** `write` of `data` at position `at`; past the end it extends the file, filling any gap with zeros. */
  function WriteAt(f: Bytes, at: nat, data: Bytes): (r: Bytes)
    ensures |r| == if data == [] || at + |data| <= |f| then |f| else at + |data|
    ensures forall i :: 0 <= i < |r| ==>
              r[i] == if at <= i < at + |data| then data[i - at] else if i < |f| then f[i] else 0
  {
    if data == [] then f
    else
      var end := at + |data|;
      var g := if |f| < end then f + seq(end - |f|, _ => 0) else f;
      g[..at] + data + g[end..]
  }

  // ---------------------------------------------------------------- stride

  /** The worker that hashes block `idx` when `w` workers stride over the file: idx mod w. */
  function Owner(w: pos, idx: nat): (r: nat)
    ensures r < w
  {
    if idx < w then idx else Owner(w, idx - w)
  }

  lemma {:induction false} OwnerIsModulo(w: pos, idx: nat)
    ensures Owner(w, idx) == idx % w
  {
    if idx >= w {
      OwnerIsModulo(w, idx - w);
      DivisionByScale(idx - w, w);
      DivisionByScale(idx, w);
      var q, q' := (idx - w) / w + 1, idx / w;
      if q < q' {
        StartMonotone(Layout(w, 0), q, q');
      } else if q > q' {
        StartMonotone(Layout(w, 0), q', q);
      }
    }
  }

  /** A worker meets each index of its residue class once: within one stride the owner fixes the index. */
  lemma {:induction false} SameOwnerWithinStride(w: pos, a: nat, b: nat)
    requires Owner(w, a) == Owner(w, b) && a <= b < a + w
    ensures a == b
  {
    if a >= w {
      SameOwnerWithinStride(w, a - w, b - w);
    } else if b >= w {
      assert false;
    }
  }

  /** A worker's offset advances by the stride: (k + w) * bs == k * bs + w * bs. */
  lemma StartOfStride(l: Layout, k: nat, w: nat)
    ensures Start(l, k + w) == Start(l, k) + w * l.bs
  {
    ScaleAdd(l.bs, k, w);
    ScaleIsProduct(l.bs, w);
  }
}
