/** The key and IV expansion of HC128_Init, in place in the two tables. */
module Setup {
  import opened Words
  import opened Cipher

  /** w is a run of the W recurrence. */
  ghost predicate IsExpansion(w: seq<Word>) {
    16 <= |w| < WORD && forall i | 16 <= i < |w| :: Recurs(w, i)
  }

  ghost predicate Recurs(w: seq<Word>, i: int)
    requires 16 <= i < |w| < WORD
  {
    w[i] == NextW(w[..i])
  }

  lemma {:induction false} ExpandIsExpansion(w: seq<Word>, n: nat)
    requires IsExpansion(w) && |w| + n < WORD
    ensures IsExpansion(Expand(w, n))
    decreases n
  {
    if n > 0 {
      var x := w + [NextW(w)];
      forall i | 16 <= i < |x| ensures Recurs(x, i) {
        if i < |w| {
          assert Recurs(w, i);
          assert x[..i] == w[..i];
        } else {
          assert x[..i] == w;
        }
      }
      ExpandIsExpansion(x, n - 1);
    }
  }

  lemma RecurrenceAt(w: seq<Word>, i: int)
    requires IsExpansion(w) && 16 <= i < |w|
    ensures w[i] == Add(Add(Add(Add(F2(w[i - 2]), w[i - 7]), F1(w[i - 15])), w[i - 16]), i)
  {
    assert Recurs(w, i);
    var v := w[..i];
    assert v[i - 2] == w[i - 2] && v[i - 7] == w[i - 7] && v[i - 15] == w[i - 15] && v[i - 16] == w[i - 16];
  }

  /** The recurrence loops of HC128_Init: cells from `lo` to `hi` hold W[base + i]. */
  method Generate(a: array<Word>, lo: int, hi: int, base: int, ghost w: seq<Word>)
    requires IsExpansion(w) && 16 == lo <= hi <= a.Length && 0 <= base && base + hi <= |w|
    requires forall i | 0 <= i < 16 :: a[i] == w[base + i]
    modifies a
    ensures forall i | 0 <= i < hi :: a[i] == w[base + i]
  {
    for i := lo to hi
      invariant forall k | 0 <= k < i :: a[k] == w[base + k]
    {
      RecurrenceAt(w, base + i);
      a[i] := Add(Add(Add(Add(F2(a[i - 2]), a[i - 7]), F1(a[i - 15])), a[i - 16]), base + i);
    }
  }

  method CopySixteen(from: array<Word>, at: int, to: array<Word>)
    requires 0 <= at && at + 16 <= from.Length && 16 <= to.Length && (from == to ==> 16 <= at)
    modifies to
    ensures forall i | 0 <= i < 16 :: to[i] == old(from[at + i])
    ensures forall i | 16 <= i < to.Length :: to[i] == old(to[i])
  {
    for i := 0 to 16
      invariant forall k | 0 <= k < i :: to[k] == old(from[at + k])
      invariant forall k | i <= k < to.Length :: to[k] == old(to[k])
    {
      to[i] := from[at + i];
    }
  }

  method LoadSeed(p: array<Word>, key: seq<Byte>, iv: seq<Byte>)
    requires |key| == |iv| == 16 && p.Length == 512
    modifies p
    ensures forall i | 0 <= i < 16 :: p[i] == Seed(key, iv)[i]
  {
    ghost var w := Seed(key, iv);
    for i := 0 to 4
      invariant forall k | 0 <= k < i || 4 <= k < 4 + i :: p[k] == w[k]
    {
      p[i] := Le32(key, 4 * i);
      p[i + 4] := Le32(key, 4 * i);
    }
    for i := 0 to 4
      invariant forall k | 0 <= k < 8 + i || 12 <= k < 12 + i :: p[k] == w[k]
    {
      p[i + 8] := Le32(iv, 4 * i);
      p[i + 12] := Le32(iv, 4 * i);
    }
  }

  /** The expansion of HC128_Init, in place in the two tables. */
  method LoadTables(p: array<Word>, q: array<Word>, key: seq<Byte>, iv: seq<Byte>)
    requires |key| == |iv| == 16 && p.Length == q.Length == 512 && p != q
    modifies p, q
    ensures var w := Expand(Seed(key, iv), 1264); p[..] == w[256..768] && q[..] == w[768..1280]
  {
    ghost var w := Expand(Seed(key, iv), 1264);
    ExpandIsExpansion(Seed(key, iv), 1264);
    LoadSeed(p, key, iv);
    Generate(p, 16, 272, 0, w);
    CopySixteen(p, 256, p);
    Generate(p, 16, 512, 256, w);
    CopySixteen(p, 496, q);
    Generate(q, 16, 32, 752, w);
    CopySixteen(q, 16, q);
    Generate(q, 16, 512, 768, w);
  }
}
