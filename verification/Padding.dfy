/** Length hiding by size class (padding.py). The random filler is an argument. */
module Padding {
  import opened Common

  const LEN_PREFIX_LEN := 4

  const MAX_BODY_LEN: nat := 0xFFFF_FFFF

  const PAD_LADDER: seq<nat> := [4096, 16384, 65536, 262144]

  datatype PaddingError = TooLarge | ShortPrefix | Truncated

  // ----- Buckets -----

  /** What the source asks of a ladder: some ascending positive sizes. */
  predicate IsLadder(ladder: seq<nat>) {
    |ladder| > 0 && ladder[0] > 0 && forall i, j :: 0 <= i < j < |ladder| ==> ladder[i] < ladder[j]
  }

  function Top(ladder: seq<nat>): (top: nat)
    requires IsLadder(ladder)
    ensures top > 0
  {
    ladder[|ladder| - 1]
  }

  function BucketFor(total: nat, ladder: seq<nat>): nat
    requires IsLadder(ladder)
  {
    FirstBucket(total, ladder, 0)
  }

  function FirstBucket(total: nat, ladder: seq<nat>, i: nat): nat
    requires IsLadder(ladder) && i <= |ladder|
    decreases |ladder| - i
  {
    if i == |ladder| then (total + Top(ladder) - 1) / Top(ladder) * Top(ladder)
    else if total <= ladder[i] then ladder[i]
    else FirstBucket(total, ladder, i + 1)
  }

  /** The size classes: the ladder's steps, then the multiples of its top. */
  ghost predicate IsBucket(b: nat, ladder: seq<nat>)
    requires IsLadder(ladder)
  {
    b in ladder || exists n: nat :: n > 1 && b == n * Top(ladder)
  }

  /** Rounding up to a multiple of `top` gives the least multiple not below. */
  lemma RoundUp(total: nat, top: nat)
    requires top > 0
    ensures var n := (total + top - 1) / top; n * top >= total && (n - 1) * top < total
  {
    var n := (total + top - 1) / top;
    assert total + top - 1 == n * top + (total + top - 1) % top;
  }

  lemma Multiples(m: int, n: int, top: nat)
    requires m < n
    ensures m * top <= (n - 1) * top
  {
    var d: nat := n - 1 - m;
    assert d * top >= 0;
    assert (n - 1) * top == (m + d) * top == m * top + d * top;
  }

  /** Past the ladder: no class lies between a length and the multiple of the top above it. */
  lemma MultipleIsLeast(total: nat, ladder: seq<nat>)
    requires IsLadder(ladder) && Top(ladder) < total
    ensures var r := (total + Top(ladder) - 1) / Top(ladder) * Top(ladder);
            IsBucket(r, ladder) && total <= r
            && forall b: nat :: IsBucket(b, ladder) && total <= b ==> r <= b
  {
    var top := Top(ladder);
    var n := (total + top - 1) / top;
    RoundUp(total, top);
    if n <= 1 { Multiples(n - 1, 1, top); }
    forall b: nat | IsBucket(b, ladder) && total <= b ensures n * top <= b {
      var m: nat :| m > 1 && b == m * top;
      if m < n { Multiples(m, n, top); } else if n < m { Multiples(n, m, top); }
    }
  }

  /** Within the ladder: no class lies between a length and the first step that holds it. */
  lemma StepIsLeast(total: nat, ladder: seq<nat>, i: nat)
    requires IsLadder(ladder) && i < |ladder| && total <= ladder[i]
    requires forall j :: 0 <= j < i ==> ladder[j] < total
    ensures forall b: nat :: IsBucket(b, ladder) && total <= b ==> ladder[i] <= b
  {
    forall b: nat | IsBucket(b, ladder) && total <= b ensures ladder[i] <= b {
      if b !in ladder {
        var m: nat :| m > 1 && b == m * Top(ladder);
        Multiples(1, m, Top(ladder));
      }
    }
  }

  lemma {:induction false} FirstBucketIsLeast(total: nat, ladder: seq<nat>, i: nat)
    requires IsLadder(ladder) && i <= |ladder|
    requires forall j :: 0 <= j < i ==> ladder[j] < total
    ensures var r := FirstBucket(total, ladder, i);
            IsBucket(r, ladder) && total <= r
            && forall b: nat :: IsBucket(b, ladder) && total <= b ==> r <= b
    decreases |ladder| - i
  {
    if i == |ladder| {
      assert ladder[i - 1] < total;
      MultipleIsLeast(total, ladder);
    } else if total <= ladder[i] {
      StepIsLeast(total, ladder, i);
    } else {
      FirstBucketIsLeast(total, ladder, i + 1);
    }
  }

  /** The size class of a length is the least bucket not below it. */
  lemma BucketIsLeast(total: nat, ladder: seq<nat>)
    requires IsLadder(ladder)
    ensures IsBucket(BucketFor(total, ladder), ladder) && total <= BucketFor(total, ladder)
    ensures forall b: nat :: IsBucket(b, ladder) && total <= b ==> BucketFor(total, ladder) <= b
  {
    FirstBucketIsLeast(total, ladder, 0);
  }

  /** All an observer of the padded length learns: two lengths look alike exactly when no bucket
      boundary lies between them. */
  lemma SameClassIff(t0: nat, t1: nat, ladder: seq<nat>)
    requires IsLadder(ladder) && t0 <= t1
    ensures BucketFor(t0, ladder) == BucketFor(t1, ladder) <==>
            !exists b: nat :: IsBucket(b, ladder) && t0 <= b < t1
  {
    BucketIsLeast(t0, ladder);
    BucketIsLeast(t1, ladder);
  }

  // ----- Length prefix -----

  function BigEndian(n: nat): (b: bytes)
    requires n <= MAX_BODY_LEN
    ensures |b| == LEN_PREFIX_LEN
  {
    [n / 256 / 256 / 256, n / 256 / 256 % 256, n / 256 % 256, n % 256]
  }

  function FromBigEndian(b: bytes): (n: nat)
    requires |b| == LEN_PREFIX_LEN
    ensures n <= MAX_BODY_LEN
  {
    ((b[0] as int * 256 + b[1] as int) * 256 + b[2] as int) * 256 + b[3] as int
  }

  /** Most significant octet first. */
  lemma BigEndianIs(n: nat)
    requires n <= MAX_BODY_LEN
    ensures var b := BigEndian(n);
            n == b[0] as int * 0x100_0000 + b[1] as int * 0x1_0000 + b[2] as int * 0x100 + b[3] as int
  {
  }

  lemma FromBigEndianOf(n: nat)
    requires n <= MAX_BODY_LEN
    ensures FromBigEndian(BigEndian(n)) == n
  {
  }

  lemma BigEndianOf(b: bytes)
    requires |b| == LEN_PREFIX_LEN
    ensures BigEndian(FromBigEndian(b)) == b
  {
    var n := FromBigEndian(b);
    assert n / 256 == (b[0] as int * 256 + b[1] as int) * 256 + b[2] as int;
    assert n / 256 / 256 == b[0] as int * 256 + b[1] as int;
    assert b == [b[0], b[1], b[2], b[3]];
  }

  // ----- Padding -----

  function FillerLength(body: bytes, ladder: seq<nat>): nat
    requires IsLadder(ladder)
  {
    BucketIsLeast(LEN_PREFIX_LEN + |body|, ladder);
    BucketFor(LEN_PREFIX_LEN + |body|, ladder) - (LEN_PREFIX_LEN + |body|)
  }

  function PadToBucket(body: bytes, ladder: seq<nat>, filler: bytes): Result<bytes, PaddingError>
    requires IsLadder(ladder) && |filler| == FillerLength(body, ladder)
  {
    if |body| > MAX_BODY_LEN then Err(TooLarge) else Ok(BigEndian(|body|) + body + filler)
  }

  function Unpad(blob: bytes): Result<bytes, PaddingError> {
    if |blob| < LEN_PREFIX_LEN then Err(ShortPrefix)
    else
      var end := LEN_PREFIX_LEN + FromBigEndian(blob[..LEN_PREFIX_LEN]);
      if end > |blob| then Err(Truncated) else Ok(blob[LEN_PREFIX_LEN..end])
  }

  /** A blob unpads to `body` exactly when it is the body behind its length, any tail after it. */
  lemma UnpadsIff(blob: bytes, body: bytes)
    ensures Unpad(blob) == Ok(body) <==>
            |body| <= MAX_BODY_LEN && BigEndian(|body|) + body <= blob
  {
    if Unpad(blob) == Ok(body) {
      BigEndianOf(blob[..LEN_PREFIX_LEN]);
      assert blob[..LEN_PREFIX_LEN] + body == blob[..LEN_PREFIX_LEN + |body|];
    }
    if |body| <= MAX_BODY_LEN && BigEndian(|body|) + body <= blob {
      FromBigEndianOf(|body|);
      var head := BigEndian(|body|) + body;
      assert head == blob[..|head|];
      assert blob[..LEN_PREFIX_LEN] == head[..LEN_PREFIX_LEN] == BigEndian(|body|);
      assert blob[LEN_PREFIX_LEN..|head|] == head[LEN_PREFIX_LEN..] == body;
    }
  }

  /** Every body below 4 GiB comes back, whatever the filler; its length becomes its class. */
  lemma UnpadPad(body: bytes, ladder: seq<nat>, filler: bytes)
    requires IsLadder(ladder) && |filler| == FillerLength(body, ladder)
    ensures PadToBucket(body, ladder, filler).Ok? <==> |body| <= MAX_BODY_LEN
    ensures var p := PadToBucket(body, ladder, filler);
            p.Ok? ==> Unpad(p.value) == Ok(body) && |p.value| == BucketFor(LEN_PREFIX_LEN + |body|, ladder)
  {
    if |body| <= MAX_BODY_LEN {
      UnpadsIff(BigEndian(|body|) + body + filler, body);
    }
  }
}
