/** What several models use. */
module Common {

  datatype Option<+T> = None | Some(value: T)

  /** The word w stands in t at place i. */
  predicate At(t: string, i: int, w: string) {
    0 <= i && i + |w| <= |t| && t[i..i + |w|] == w
  }

  const U32: int := 0x1_0000_0000
  const U64: int := 0x1_0000_0000_0000_0000

  /** unsigned char */
  type Byte = b: nat | b < 256

  /** guint64 */
  type Word = n: nat | n < U64

  /** GST_CLOCK_TIME_NONE, and (guint64) -1 */
  const NONE: Word := 0xffff_ffff_ffff_ffff

  /** A guint used as a gint. */
  function Signed32(n: nat): (r: int)
    ensures -U32 / 2 <= r < U32 / 2 && r % U32 == n % U32
  {
    var m := n % U32;
    if m < U32 / 2 then m else m - U32
  }

  /** The first push from number k on, below n, that is not accepted; n if there is none. */
  function FirstRefused(flow: nat -> bool, k: nat, n: nat): (r: nat)
    requires k <= n
    ensures k <= r <= n && (forall j :: k <= j < r ==> flow(j)) && (r < n ==> !flow(r))
    decreases n - k
  {
    if k == n || !flow(k) then k else FirstRefused(flow, k + 1, n)
  }

  ghost predicate Ascending(l: seq<nat>) {
    forall i, j :: 0 <= i < j < |l| ==> l[i] <= l[j]
  }

  /** White space as the C library and Python's `re` see it in ASCII text. */
  predicate IsSpace(c: char)
    ensures IsSpace(c) <==> c as int == 32 || 9 <= c as int <= 13
  {
    c == ' ' || c == '\t' || c == '\n' || c == '\r' || c == '\U{b}' || c == '\U{c}'
  }

  lemma {:induction false} SameFront(a: string, b: string, tail: string)
    requires a + tail == b + tail
    ensures a == b
  {
    assert |a| == |b|;
    assert (a + tail)[..|a|] == a && (b + tail)[..|b|] == b;
  }

  lemma SumWraps(a: nat, b: nat)
    ensures (a % U64 + b) % U64 == (a + b) % U64
  {
  }

  lemma MulKeepsOrder(d: nat, x: nat, y: nat)
    requires x <= y
    ensures d * x <= d * y
  {
  }

  lemma {:induction false} DivKeepsOrder(a: nat, b: nat, d: nat)
    requires a <= b && d > 0
    ensures a / d <= b / d
  {
    var x, y := a / d, b / d;
    assert d * x <= a && b < d * y + d;
    MulKeepsOrder(d, y + 1, if x > y then x else y + 1);
  }
}
