/** The disk under the file system: blocks changed by atomic single-block writes
    (xv6/memide.c, xv6/fs.h). The header block of the log is shown as the list of
    block numbers in its struct logheader, block[0..n). */
module Disk {

  import opened Common

  datatype Image = Image(head: seq<int>, blocks: seq<Block>)

  datatype Write = Head(lh: seq<int>) | Data(b: nat, v: Block)

  ghost predicate InRange(size: nat, ws: seq<Write>) {
    forall i :: 0 <= i < |ws| ==> ws[i].Data? ==> ws[i].b < size
  }

  function ApplyOne(d: Image, w: Write): (r: Image)
    requires w.Data? ==> w.b < |d.blocks|
    ensures |r.blocks| == |d.blocks|
  {
    match w
    case Head(lh) => d.(head := lh)
    case Data(b, v) => d.(blocks := d.blocks[b := v])
  }

  /** The image after the first k of the writes `ws`, in order. */
  ghost function Apply(d: Image, ws: seq<Write>, k: nat): (r: Image)
    requires InRange(|d.blocks|, ws) && k <= |ws|
    ensures |r.blocks| == |d.blocks|
  {
    if k == 0 then d else ApplyOne(Apply(d, ws, k - 1), ws[k - 1])
  }

  ghost function ApplyAll(d: Image, ws: seq<Write>): (r: Image)
    requires InRange(|d.blocks|, ws)
    ensures |r.blocks| == |d.blocks|
  {
    Apply(d, ws, |ws|)
  }

  /** Only the first k writes matter. */
  lemma {:induction false} ApplyPrefix(d: Image, ws: seq<Write>, vs: seq<Write>, k: nat)
    requires InRange(|d.blocks|, ws) && InRange(|d.blocks|, vs) && k <= |ws| && k <= |vs|
    requires forall i :: 0 <= i < k ==> ws[i] == vs[i]
    ensures Apply(d, ws, k) == Apply(d, vs, k)
  {
    if k > 0 { ApplyPrefix(d, ws, vs, k - 1); }
  }

  lemma {:induction false} ApplyConcat(d: Image, a: seq<Write>, b: seq<Write>, j: nat, k: nat)
    requires InRange(|d.blocks|, a) && InRange(|d.blocks|, b) && j <= |b| && k == |a| + j
    ensures InRange(|d.blocks|, a + b)
    ensures Apply(d, a + b, k) == Apply(ApplyAll(d, a), b, j)
  {
    if j == 0 {
      ApplyPrefix(d, a + b, a, k);
    } else {
      ApplyConcat(d, a, b, j - 1, k - 1);
    }
  }

  /** A sequence of writes cut at the write `w`. */
  lemma ApplyAround(d: Image, a: seq<Write>, w: Write, b: seq<Write>, j: nat, k: nat)
    requires InRange(|d.blocks|, a) && (w.Data? ==> w.b < |d.blocks|) && InRange(|d.blocks|, b) && j <= |b|
    requires k == |a| + 1 + j
    ensures InRange(|d.blocks|, a + [w] + b)
    ensures Apply(d, a + [w] + b, k) == Apply(ApplyOne(ApplyAll(d, a), w), b, j)
  {
    ApplyConcat(d, a + [w], b, j, k);
    ApplyConcat(d, a, [w], 1, |a + [w]|);
  }
}
