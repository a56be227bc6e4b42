/** Sorting the nanos of an EMM by tag (dvbapi_sort_nanos, oscam/module-dvbapi.c, lines 374-396).

    The source is a run of nanos: tag, length, that many bytes.  Each pass over it copies the nanos
    whose tag is `c` to the destination and finds the next larger tag; 0x100 ends the passes. */
module NanoSort {

  type Byte = b: int | 0 <= b < 256

  /** One nano: tag, length and payload together, as it is copied. */
  type Nano = n: seq<Byte> | 2 <= |n| <= 257 witness [0, 0]

  // ---------- The nanos of a buffer ----------

  function NanoSize(src: seq<Byte>, j: nat): (l: nat)
    requires j + 1 < |src|
    ensures 2 <= l <= 257
  {
    src[j + 1] as int + 2
  }

  /** The nanos that start below `len` lie in the source, the last one possibly behind `len`. */
  predicate Readable(src: seq<Byte>, j: nat, len: nat)
    decreases len - j
  {
    j >= len || (j + 1 < |src| && j + NanoSize(src, j) <= |src| && Readable(src, j + NanoSize(src, j), len))
  }

  function NanosFrom(src: seq<Byte>, j: nat, len: nat): seq<Nano>
    requires Readable(src, j, len)
    decreases len - j
  {
    if j >= len then [] else
      var l := NanoSize(src, j);
      [src[j..j + l]] + NanosFrom(src, j + l, len)
  }

  function Flat(ns: seq<Nano>): seq<Byte> {
    if ns == [] then [] else ns[0] + Flat(ns[1..])
  }

  /** The nanos fill `len` bytes exactly: the last one does not run over the end. */
  predicate WellFormed(src: seq<Byte>, len: nat)
    requires Readable(src, 0, len)
  {
    |Flat(NanosFrom(src, 0, len))| == len
  }

  // ---------- Stable order by tag ----------

  function WithTag(ns: seq<Nano>, tag: int): seq<Nano> {
    if ns == [] then []
    else (if ns[0][0] == tag then [ns[0]] else []) + WithTag(ns[1..], tag)
  }

  /** The nanos with a tag below `bound`, tag by tag, each tag in source order. */
  function Below(ns: seq<Nano>, bound: nat): seq<Nano> {
    if bound == 0 then [] else Below(ns, bound - 1) + WithTag(ns, bound - 1)
  }

  function Sorted(ns: seq<Nano>): seq<Nano> {
    Below(ns, 256)
  }

  lemma {:induction false} WithTagAppend(a: seq<Nano>, b: seq<Nano>, tag: int)
    ensures WithTag(a + b, tag) == WithTag(a, tag) + WithTag(b, tag)
  {
    if a == [] {
      assert a + b == b;
    } else {
      WithTagAppend(a[1..], b, tag);
      assert (a + b)[0] == a[0] && (a + b)[1..] == a[1..] + b;
      TagRegroup(if a[0][0] == tag then [a[0]] else [], WithTag(a[1..], tag), WithTag(b, tag));
    }
  }

  lemma TagRegroup(x: seq<Nano>, y: seq<Nano>, z: seq<Nano>)
    ensures x + (y + z) == (x + y) + z
  {
  }

  lemma {:induction false} WithTagTags(ns: seq<Nano>, tag: int)
    ensures forall i :: 0 <= i < |WithTag(ns, tag)| ==> WithTag(ns, tag)[i][0] == tag
  {
    if ns != [] { WithTagTags(ns[1..], tag); }
  }

  lemma {:induction false} WithTagPure(ns: seq<Nano>, tag: int, other: int)
    requires forall i :: 0 <= i < |ns| ==> ns[i][0] == tag
    ensures WithTag(ns, other) == if other == tag then ns else []
  {
    if ns != [] { WithTagPure(ns[1..], tag, other); }
  }

  lemma {:induction false} BelowTags(ns: seq<Nano>, bound: nat)
    ensures forall i :: 0 <= i < |Below(ns, bound)| ==> Below(ns, bound)[i][0] < bound
    ensures forall i, j :: 0 <= i < j < |Below(ns, bound)| ==> Below(ns, bound)[i][0] <= Below(ns, bound)[j][0]
  {
    if bound > 0 {
      BelowTags(ns, bound - 1);
      WithTagTags(ns, bound - 1);
    }
  }

  lemma {:induction false} WithTagBelow(ns: seq<Nano>, bound: nat, tag: nat)
    ensures WithTag(Below(ns, bound), tag) == if tag < bound then WithTag(ns, tag) else []
  {
    hide WithTag, Below;
    if bound > 0 {
      WithTagBelow(ns, bound - 1, tag);
      WithTagTags(ns, bound - 1);
      WithTagPure(WithTag(ns, bound - 1), bound - 1, tag);
      BelowMore(ns, bound);
      WithTagAppend(Below(ns, bound - 1), WithTag(ns, bound - 1), tag);
    } else {
      BelowZero(ns);
      NoTag([], tag);
    }
  }

  /** How often `x` occurs. */
  function Count(ns: seq<Nano>, x: Nano): nat {
    if ns == [] then 0 else (if ns[0] == x then 1 else 0) + Count(ns[1..], x)
  }

  lemma {:induction false} CountAppend(a: seq<Nano>, b: seq<Nano>, x: Nano)
    ensures Count(a + b, x) == Count(a, x) + Count(b, x)
  {
    if a == [] {
      assert a + b == b;
    } else {
      CountAppend(a[1..], b, x);
      assert (a + b)[0] == a[0] && (a + b)[1..] == a[1..] + b;
    }
  }

  lemma {:induction false} CountWithTag(ns: seq<Nano>, tag: int, x: Nano)
    ensures Count(WithTag(ns, tag), x) == if x[0] == tag then Count(ns, x) else 0
  {
    if ns != [] {
      CountWithTag(ns[1..], tag, x);
      var first := if ns[0][0] == tag then [ns[0]] else [];
      CountAppend(first, WithTag(ns[1..], tag), x);
      assert Count(first, x) == if ns[0][0] == tag && ns[0] == x then 1 else 0;
    }
  }

  lemma {:induction false} CountBelow(ns: seq<Nano>, bound: nat, x: Nano)
    ensures Count(Below(ns, bound), x) == if x[0] < bound then Count(ns, x) else 0
  {
    if bound > 0 {
      CountBelow(ns, bound - 1, x);
      CountAppend(Below(ns, bound - 1), WithTag(ns, bound - 1), x);
      CountWithTag(ns, bound - 1, x);
    }
  }

  lemma {:induction false} BelowNothing(bound: nat)
    ensures Below([], bound) == []
  {
    if bound > 0 { BelowNothing(bound - 1); }
  }

  /** `Sorted` is the stable sort: every nano occurs as often as in the source, the tags ascend, and
      the nanos of each tag keep their order. */
  lemma {:induction false} SortedIsStableSort(ns: seq<Nano>)
    ensures forall x: Nano :: Count(Sorted(ns), x) == Count(ns, x)
    ensures forall i, j :: 0 <= i < j < |Sorted(ns)| ==> Sorted(ns)[i][0] <= Sorted(ns)[j][0]
    ensures forall tag: nat :: tag < 256 ==> WithTag(Sorted(ns), tag) == WithTag(ns, tag)
  {
    forall x: Nano ensures Count(Sorted(ns), x) == Count(ns, x) {
      CountBelow(ns, 256, x);
    }
    BelowTags(ns, 256);
    forall tag: nat | tag < 256 ensures WithTag(Sorted(ns), tag) == WithTag(ns, tag) {
      WithTagBelow(ns, 256, tag);
    }
  }

  // ---------- Sizes ----------

  lemma {:induction false} FlatAppend(a: seq<Nano>, b: seq<Nano>)
    ensures Flat(a + b) == Flat(a) + Flat(b)
  {
    if a == [] {
      assert a + b == b && Flat(a) == [];
      assert [] + Flat(b) == Flat(b);
    } else {
      FlatAppend(a[1..], b);
      assert (a + b)[0] == a[0] && (a + b)[1..] == a[1..] + b;
      FlatFirst(a);
      FlatFirst(a + b);
      FlatRegroup(a[0], Flat(a[1..]), Flat(b));
    }
  }

  lemma FlatRegroup(x: seq<Byte>, y: seq<Byte>, z: seq<Byte>)
    ensures x + (y + z) == (x + y) + z
  {
  }

  /** Everything that sorts below `bound` takes no more room than all nanos together. */
  lemma {:induction false} BelowSize(ns: seq<Nano>, bound: nat)
    ensures |Flat(Below(ns, bound))| <= |Flat(ns)|
    ensures bound >= 256 ==> |Flat(Below(ns, bound))| == |Flat(ns)|
  {
    if ns == [] {
      BelowNothing(bound);
    } else {
      BelowSize(ns[1..], bound);
      BelowSizeStep(ns, bound);
    }
  }

  lemma {:induction false} BelowSizeStep(ns: seq<Nano>, bound: nat)
    requires ns != []
    ensures |Flat(Below(ns, bound))|
            == |Flat(Below(ns[1..], bound))| + if ns[0][0] < bound then |ns[0]| else 0
  {
    hide Flat, WithTag, Below;
    if bound == 0 {
      BelowZero(ns);
      BelowZero(ns[1..]);
    } else {
      BelowSizeStep(ns, bound - 1);
      WithTagSize(ns, bound - 1);
      BelowMore(ns, bound);
      BelowMore(ns[1..], bound);
      FlatAppend(Below(ns, bound - 1), WithTag(ns, bound - 1));
      FlatAppend(Below(ns[1..], bound - 1), WithTag(ns[1..], bound - 1));
    }
  }

  lemma BelowZero(ns: seq<Nano>)
    ensures Below(ns, 0) == []
  {
  }

  lemma BelowMore(ns: seq<Nano>, bound: nat)
    requires bound > 0
    ensures Below(ns, bound) == Below(ns, bound - 1) + WithTag(ns, bound - 1)
  {
  }

  lemma WithTagSize(ns: seq<Nano>, tag: int)
    requires ns != []
    ensures |Flat(WithTag(ns, tag))| == |Flat(WithTag(ns[1..], tag))| + if ns[0][0] == tag then |ns[0]| else 0
  {
    FlatAppend(if ns[0][0] == tag then [ns[0]] else [], WithTag(ns[1..], tag));
    FlatFirst([ns[0]]);
    assert Flat([]) == [] && [ns[0]][1..] == [];
  }

  /** No tag of `ns` lies in [lo, hi), so the bound may jump. */
  lemma {:induction false} BelowGap(ns: seq<Nano>, lo: nat, hi: nat)
    requires lo <= hi
    requires forall i :: 0 <= i < |ns| ==> !(lo <= ns[i][0] < hi)
    ensures Below(ns, hi) == Below(ns, lo)
  {
    hide WithTag;
    if lo < hi {
      BelowGap(ns, lo, hi - 1);
      NoTag(ns, hi - 1);
      assert Below(ns, hi - 1) + [] == Below(ns, hi - 1);
    }
  }

  lemma {:induction false} NoTag(ns: seq<Nano>, tag: int)
    requires forall i :: 0 <= i < |ns| ==> ns[i][0] != tag
    ensures WithTag(ns, tag) == []
  {
    if ns != [] { NoTag(ns[1..], tag); }
  }

  /** The parser always reaches the end, at or behind `len`. */
  lemma {:induction false} NanosCover(src: seq<Byte>, j: nat, len: nat)
    requires Readable(src, j, len)
    ensures j + |Flat(NanosFrom(src, j, len))| >= len
    decreases len - j
  {
    if j < len { NanosCover(src, j + NanoSize(src, j), len); }
  }

  /** A buffer that nanos fill exactly is well formed and needs no bytes behind it. */
  lemma FilledIsWellFormed(ns: seq<Nano>)
    requires forall i :: 0 <= i < |ns| ==> |ns[i]| == ns[i][1] as int + 2
    ensures var src := Flat(ns);
            Readable(src, 0, |src|) && NanosFrom(src, 0, |src|) == ns && WellFormed(src, |src|)
  {
    FilledFrom([], ns);
    assert [] + Flat(ns) == Flat(ns);
  }

  lemma {:induction false} FilledFrom(before: seq<Byte>, ns: seq<Nano>)
    requires forall i :: 0 <= i < |ns| ==> |ns[i]| == ns[i][1] as int + 2
    ensures var src := before + Flat(ns);
            Readable(src, |before|, |src|) && NanosFrom(src, |before|, |src|) == ns
    decreases |ns|
  {
    hide Flat, Readable, NanosFrom;
    var src, j := before + Flat(ns), |before|;
    if ns == [] {
      NothingFilled(before, ns);
    } else {
      FlatFirst(ns);
      NanoLies(before, ns[0], Flat(ns[1..]));
      FilledFrom(before + ns[0], ns[1..]);
      NanosMore(src, j, |src|);
      assert [ns[0]] + ns[1..] == ns;
    }
  }

  lemma NothingFilled(before: seq<Byte>, ns: seq<Nano>)
    requires ns == []
    ensures var src := before + Flat(ns);
            Readable(src, |before|, |src|) && NanosFrom(src, |before|, |src|) == ns
  {
  }

  lemma NanosMore(src: seq<Byte>, j: nat, len: nat)
    requires j < len && j + 1 < |src| && j + NanoSize(src, j) <= |src| && Readable(src, j + NanoSize(src, j), len)
    ensures Readable(src, j, len)
    ensures NanosFrom(src, j, len) == [src[j..j + NanoSize(src, j)]] + NanosFrom(src, j + NanoSize(src, j), len)
  {
  }

  lemma FlatFirst(ns: seq<Nano>)
    requires ns != []
    ensures Flat(ns) == ns[0] + Flat(ns[1..])
  {
  }

  lemma NanoLies(before: seq<Byte>, nano: Nano, rest: seq<Byte>)
    ensures var src, j := before + (nano + rest), |before|;
            src == (before + nano) + rest && j + 1 < |src| && src[j + 1] == nano[1] && src[j..j + |nano|] == nano
  {
  }

  /** With 257 bytes behind it any buffer can be read. */
  lemma {:induction false} RoomIsReadable(src: seq<Byte>, j: nat, len: nat)
    requires len + 257 <= |src|
    ensures Readable(src, j, len)
    decreases len - j
  {
    if j < len {
      RoomIsReadable(src, j + NanoSize(src, j), len);
    }
  }

  // ---------- The code ----------

  method Copy(dest: array<Byte>, w: nat, n: seq<Byte>)
    requires w + |n| <= dest.Length
    modifies dest
    ensures dest[..w + |n|] == old(dest[..w]) + n
    ensures dest[w + |n|..] == old(dest[w + |n|..])
  {
    forall k | 0 <= k < |n| {
      dest[w + k] := n[k];
    }
  }

  /** What one pass knows after the nanos `seen`: the next larger tag, 0x100 when there is none. */
  ghost predicate NextTag(seen: seq<Nano>, c: int, n: int) {
    && c < n <= 256
    && (forall i :: 0 <= i < |seen| ==> !(c < seen[i][0] < n))
    && (n < 256 ==> exists i :: 0 <= i < |seen| && seen[i][0] == n)
  }

  /** A copy that would not fit proves that the nanos do not fit altogether. */
  lemma NoRoom(ns: seq<Nano>, seen: seq<Nano>, nano: Nano, rest: seq<Nano>, c: nat)
    requires ns == seen + [nano] + rest && nano[0] == c
    ensures |Flat(Below(ns, c))| + |Flat(WithTag(seen, c))| + |nano| <= |Flat(ns)|
  {
    BelowSize(ns, c + 1);
    WithTagAppend(seen + [nano], rest, c);
    WithTagAppend(seen, [nano], c);
    assert WithTag([nano], c) == [nano];
    FlatAppend(Below(ns, c), WithTag(ns, c));
    FlatAppend(WithTag(seen, c) + [nano], WithTag(rest, c));
    FlatAppend(WithTag(seen, c), [nano]);
    assert Flat([nano]) == nano + Flat([]);
  }

  lemma FirstNano(src: seq<Byte>, j: nat, len: nat)
    requires Readable(src, j, len) && j < len
    ensures j + 1 < |src| && j + NanoSize(src, j) <= |src| && Readable(src, j + NanoSize(src, j), len)
    ensures var l, todo := NanoSize(src, j), NanosFrom(src, j, len);
            todo != [] && todo[0] == src[j..j + l] && todo[1..] == NanosFrom(src, j + l, len)
  {
  }

  lemma NanosEnd(src: seq<Byte>, j: nat, len: nat)
    requires j >= len
    ensures NanosFrom(src, j, len) == []
  {
  }

  lemma Nothing(src: seq<Byte>, len: nat, c: int)
    ensures Flat(WithTag([], c)) == []
  {
  }

  lemma OneMore(seen: seq<Nano>, nano: Nano, c: int)
    ensures Flat(WithTag(seen + [nano], c)) == Flat(WithTag(seen, c)) + if nano[0] == c then nano else []
  {
    WithTagAppend(seen, [nano], c);
    assert WithTag([nano], c) == if nano[0] == c then [nano] else [];
    FlatAppend(WithTag(seen, c), WithTag([nano], c));
    assert Flat([nano]) == nano + Flat([]) && Flat([]) == [];
  }

  lemma NextTagStep(seen: seq<Nano>, nano: Nano, c: int, n: int, tag: int)
    requires nano[0] == tag && (tag <= c || n <= tag)
    requires NextTag(seen, c, n) || (n == tag && exists m :: n <= m && NextTag(seen, c, m))
    ensures c < n ==> NextTag(seen + [nano], c, n)
  {
    var s := seen + [nano];
    assert s[|seen|] == nano;
    if NextTag(seen, c, n) && n < 256 {
      var i :| 0 <= i < |seen| && seen[i][0] == n;
      assert s[i][0] == n;
    }
  }

  /** One pass: copies the nanos with tag `c` behind `w0` and returns the next tag, or stops at the
      first copy that does not fit. */
  method Pass(dest: array<Byte>, src: seq<Byte>, len: nat, c: int, w0: nat) returns (w: nat, n: int, fits: bool)
    requires Readable(src, 0, len) && len <= dest.Length && -1 <= c < 256 && w0 <= len
    requires var ns := NanosFrom(src, 0, len);
             |Flat(Below(ns, if c < 0 then 0 else c))| == w0
    modifies dest
    ensures !fits ==> |Flat(NanosFrom(src, 0, len))| > len
    ensures fits ==> w <= len && dest[..w] == old(dest[..w0]) + Flat(WithTag(NanosFrom(src, 0, len), c))
    ensures fits ==> NextTag(NanosFrom(src, 0, len), c, n)
    ensures dest[len..] == old(dest[len..])
  {
    hide NanosFrom, Readable, Below, WithTag, Flat;
    ghost var ns := NanosFrom(src, 0, len);
    ghost var seen, todo, tagged := [], ns, [];
    ghost var before := dest[..w0];
    w, n, fits := w0, 0x100, true;
    var j := 0;
    Nothing(src, len, c);
    while j < len
      invariant Readable(src, j, len) && ns == seen + todo && todo == NanosFrom(src, j, len)
      invariant tagged == Flat(WithTag(seen, c)) && w == w0 + |tagged| <= len
      invariant dest[..w] == before + tagged
      invariant NextTag(seen, c, n)
      invariant dest[len..] == old(dest[len..])
      decreases len - j
    {
      FirstNano(src, j, len);
      var l := NanoSize(src, j);
      ghost var nano: Nano := src[j..j + l];
      assert ns == seen + [nano] + todo[1..];
      OneMore(seen, nano, c);
      if src[j] == c {
        if w + l > len {
          NoRoom(ns, seen, nano, todo[1..], c);
          fits := false;
          return;
        }
        CopyNano(dest, w, nano, src, j, len);
        tagged := tagged + nano;
        w := w + l;
      } else if src[j] > c && src[j] < n {
        n := src[j];
      }
      NextTagStep(seen, nano, c, n, src[j]);
      seen, todo := seen + [nano], todo[1..];
      j := j + l;
    }
    NanosEnd(src, j, len);
    assert seen == ns;
  }

  method CopyNano(dest: array<Byte>, w: nat, ghost nano: Nano, src: seq<Byte>, j: nat, len: nat)
    requires j + |nano| <= |src| && nano == src[j..j + |nano|] && NanoSize(src, j) == |nano|
    requires w + |nano| <= len <= dest.Length
    modifies dest
    ensures dest[..w + |nano|] == old(dest[..w]) + nano
    ensures dest[len..] == old(dest[len..])
  {
    Copy(dest, w, src[j..j + NanoSize(src, j)]);
  }

  lemma BelowStart(ns: seq<Nano>)
    ensures Flat(Below(ns, 0)) == []
  {
  }

  /** The bytes of the tags up to `c`, after which the next pass may start at tag `n`. */
  lemma PassDone(ns: seq<Nano>, c: int, n: int)
    requires -1 <= c < 256 && NextTag(ns, c, n)
    ensures Flat(Below(ns, if c < 0 then 0 else c)) + Flat(WithTag(ns, c)) == Flat(Below(ns, n))
  {
    hide Flat;
    BelowGap(ns, c + 1, n);
    if c < 0 {
      NoTag(ns, c);
      assert Flat([]) == [] by { BelowStart([]); }
      assert Below(ns, 0) == [];
    } else {
      FlatAppend(Below(ns, c), WithTag(ns, c));
    }
  }

  method SortNanos(dest: array<Byte>, src: seq<Byte>, len: nat)
    requires Readable(src, 0, len) && len <= dest.Length
    modifies dest
    ensures WellFormed(src, len) ==> dest[..len] == Flat(Sorted(NanosFrom(src, 0, len)))
    ensures !WellFormed(src, len) ==> dest[..len] == seq(len, _ => 0)
    ensures dest[len..] == old(dest[len..])
  {
    hide NanosFrom, Readable, Below, WithTag, Flat;
    ghost var ns := NanosFrom(src, 0, len);
    BelowStart(ns);
    var w, c := 0, -1;
    while true
      invariant -1 <= c < 256 && w <= len
      invariant |Flat(Below(ns, if c < 0 then 0 else c))| == w
      invariant dest[..w] == Flat(Below(ns, if c < 0 then 0 else c))
      invariant dest[len..] == old(dest[len..])
      decreases 256 - c
    {
      var w', n, fits := Pass(dest, src, len, c, w);
      if !fits {
        forall k | 0 <= k < len {
          dest[k] := 0;
        }
        return;
      }
      PassDone(ns, c, n);
      w := w';
      if n == 0x100 {
        break;
      }
      c := n;
    }
    NanosCover(src, 0, len);
    BelowSize(ns, 256);
  }
}
