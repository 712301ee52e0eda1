/** Small shared vocabulary: optional values, bytes, substring search, and the
    total length of a family of message streams. */
module Common {

  datatype Option<T> = None | Some(value: T)

  /** One octet on the wire, read as an unsigned char. */
  type Byte = x: int | 0 <= x < 256

  /** The value of an octet read as a two's-complement signed char. */
  function SignedChar(b: Byte): (r: int)
    ensures -128 <= r < 128
    ensures r % 256 == b
  {
    if b < 128 then b else b - 256
  }

  /** The octet that a signed value in -128..127 occupies on the wire. */
  function CharByte(v: int): (b: Byte)
    requires -128 <= v < 128
    ensures SignedChar(b) == v
  {
    if v < 0 then v + 256 else v
  }

  /** `k` occurs as a contiguous block of `s` (C's `strstr(s, k) != NULL`). */
  predicate Contains(s: string, k: string)
    decreases |s|
  {
    if |k| > |s| then false
    else if s[..|k|] == k then true
    else Contains(s[1..], k)
  }

  /** `k` occurs in `s` starting at position `i`. */
  predicate OccursAt(s: string, k: string, i: int) {
    0 <= i && i + |k| <= |s| && s[i..i + |k|] == k
  }

  /** Contains agrees with the positional definition of an occurrence. */
  lemma {:induction false} ContainsAt(s: string, k: string)
    ensures Contains(s, k) <==> exists i :: OccursAt(s, k, i)
    decreases |s|
  {
    if |k| > |s| {
    } else if s[..|k|] == k {
      assert OccursAt(s, k, 0);
    } else {
      ContainsAt(s[1..], k);
      if Contains(s[1..], k) {
        var i :| OccursAt(s[1..], k, i);
        assert s[i + 1..i + 1 + |k|] == s[1..][i..i + |k|];
        assert OccursAt(s, k, i + 1);
      } else {
        forall i | OccursAt(s, k, i) ensures i > 0 && OccursAt(s[1..], k, i - 1) {
          assert i != 0;
          var u, v := s[1..][i - 1..i - 1 + |k|], s[i..i + |k|];
          assert forall j :: 0 <= j < |k| ==> u[j] == v[j];
          assert u == v;
        }
      }
    }
  }

  /** The text itself always contains itself, and every text contains "". */
  lemma {:induction false} ContainsSelf(s: string, k: string)
    ensures Contains(s, s)
    ensures Contains(s, [])
  {
    assert s[..|s|] == s;
    assert s[..0] == [];
  }

  /** The number of messages left across all streams. */
  function Total<T>(xs: seq<seq<T>>): (n: nat)
    ensures xs == [] ==> n == 0
  {
    if xs == [] then 0 else |xs[0]| + Total(xs[1..])
  }

  /** Replacing one stream changes the total by the difference in length. */
  lemma {:induction false} TotalUpdate<T>(xs: seq<seq<T>>, i: nat, ys: seq<T>)
    requires i < |xs|
    ensures Total(xs[i := ys]) == Total(xs) - |xs[i]| + |ys|
    ensures |xs[i]| <= Total(xs)
  {
    if i == 0 {
      assert xs[i := ys][1..] == xs[1..];
    } else {
      assert xs[i := ys][1..] == xs[1..][i - 1 := ys];
      TotalUpdate(xs[1..], i - 1, ys);
    }
  }

  /** All elements of `ms` but the last. */
  function Front<T>(ms: seq<T>): seq<T> {
    if ms == [] then [] else ms[..|ms| - 1]
  }

  /** A concatenation splits back into its parts at the first one's length. */
  lemma SplitAt<T>(a: seq<T>, b: seq<T>)
    ensures (a + b)[..|a|] == a && (a + b)[|a|..] == b
  {
  }

  lemma ConcatAssoc<T>(a: seq<T>, b: seq<T>, c: seq<T>)
    ensures (a + b) + c == a + (b + c)
  {
  }

  /** `d` splits into consecutive segments, the k-th starting at position `cuts[k]`
      with `heads[k]`: the heads occur in `d` in order, the first one at its start. */
  ghost predicate Segments<T>(d: seq<T>, heads: seq<T>, cuts: seq<int>) {
    && |cuts| == |heads|
    && (heads == [] <==> d == [])
    && (heads != [] ==> cuts[0] == 0)
    && (forall k :: 0 <= k < |cuts| ==> 0 <= cuts[k] < |d| && d[cuts[k]] == heads[k])
    && (forall k :: 0 < k < |cuts| ==> cuts[k - 1] < cuts[k])
  }

  /** A log that grew from `before` to `after` by a segment starting with `h` gains `h`
      as its next head, measured from `base`. */
  lemma SegmentsExtend<T>(base: seq<T>, before: seq<T>, after: seq<T>, heads: seq<T>, cuts: seq<int>, h: T)
    requires base <= before && before + [h] <= after
    requires Segments(before[|base|..], heads, cuts)
    ensures base <= after
    ensures Segments(after[|base|..], heads + [h], cuts + [|before| - |base|])
  {
    var d, e := before[|base|..], after[|before|..];
    assert after[|base|..] == d + e;
    assert e[0] == h;
    var d', heads', cuts' := d + e, heads + [h], cuts + [|d|];
    forall k | 0 <= k < |cuts'|
      ensures 0 <= cuts'[k] < |d'| && d'[cuts'[k]] == heads'[k]
    {
      if k < |cuts| {
        assert cuts'[k] == cuts[k] && heads'[k] == heads[k];
      }
    }
  }

  /** Reading one more element `h` at position `p` of a fixed stream `s`, after the
      segments read so far from `b` on, where other readers may have taken elements up
      to `q`: `h` is the next head. */
  lemma SegmentsGrow<T>(s: seq<T>, b: int, p: int, q: int, heads: seq<T>, cuts: seq<int>, h: T)
    requires 0 <= b <= p < q <= |s| && s[p] == h
    requires Segments(s[b..p], heads, cuts)
    ensures Segments(s[b..q], heads + [h], cuts + [p - b])
  {
    SegmentsExtend(s[..b], s[..p], s[..q], heads, cuts, h);
    assert s[..p][|s[..b]|..] == s[b..p];
    assert s[..q][|s[..b]|..] == s[b..q];
  }

  /** `got` was read from the positions `b..e` of the stream `s`, in order, the first at
      `b` and the last at `e - 1`. */
  ghost predicate ReadSpan<T>(s: seq<T>, b: int, e: int, got: seq<T>, cuts: seq<int>) {
    && 0 <= b <= e <= |s|
    && Segments(s[b..e], got, cuts)
    && got != []
    && cuts[|cuts| - 1] == e - b - 1
  }
}
