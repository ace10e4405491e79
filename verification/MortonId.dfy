/** Branch ids: a leading marker followed by one group of dim bits for each level,
    the deepest level lowest. */
module MortonId {
  import opened Powers

  /** dim coordinates interleaved into an integer of the given width. */
  datatype Layout = Layout(dim: nat, bits: nat) {
    ghost predicate Ok() {
      dim >= 1 && bits >= 1
    }

    function MaxDepth(): nat
      requires dim >= 1 && bits >= 1
    {
      (bits - 1) / dim
    }

    function Root(): nat
      requires dim >= 1 && bits >= 1
    {
      Pow2((bits - 1) % dim)
    }

    function Fan(): (fan: nat)
      ensures fan >= 1
    {
      Pow2(dim)
    }
  }

  lemma RootIsSmall(m: Layout)
    requires m.Ok()
    ensures 1 <= m.Root() < m.Fan() && m.Fan() >= 2
  {
    var r := (m.bits - 1) % m.dim;
    Pow2Add(r, m.dim - r);
    assert Pow2(m.dim - r) == 2 * Pow2(m.dim - r - 1);
    assert Pow2(r) * Pow2(m.dim - r) >= 2 * Pow2(r);
  }

  // ----- paths ------------------------------------------------------------------------------

  /** The way down from the root: one child number for each level. */
  type Path = seq<nat>

  ghost predicate Digits(m: Layout, p: Path) {
    forall i :: 0 <= i < |p| ==> p[i] < m.Fan()
  }

  ghost function Encode(m: Layout, p: Path): nat
    requires m.Ok()
  {
    if p == [] then m.Root() else Push(m, Encode(m, p[..|p| - 1]), p[|p| - 1])
  }

  /** Shifts a new group in behind the others. */
  function Push(m: Layout, id: nat, digit: nat): nat {
    id * m.Fan() + digit
  }

  /** Shifts the last group out. */
  function Pop(m: Layout, id: nat): nat {
    Quotient(id, m.Fan())
  }

  lemma PushPop(m: Layout, id: nat, digit: nat)
    requires m.Ok() && digit < m.Fan()
    ensures Pop(m, Push(m, id, digit)) == id && Push(m, id, digit) % m.Fan() == digit
  {
    DivUnique(id * m.Fan() + digit, m.Fan(), id, digit);
  }

  ghost function DepthOf(m: Layout, id: nat): nat
    requires m.Ok()
  {
    RootIsSmall(m);
    if Pop(m, id) == 0 then 0 else
      PopSmaller(m, id);
      1 + DepthOf(m, Pop(m, id))
  }

  lemma PopSmaller(m: Layout, id: nat)
    requires m.Ok() && Pop(m, id) != 0
    ensures Pop(m, id) < id
  {
    RootIsSmall(m);
    var q := Pop(m, id);
    assert id == m.Fan() * q + id % m.Fan();
    assert m.Fan() * q >= 2 * q;
  }

  /** Shifts until nothing is left. */
  method Depth(m: Layout, id: nat) returns (d: nat)
    requires m.Ok()
    ensures d == DepthOf(m, id)
  {
    RootIsSmall(m);
    var rest := Pop(m, id);
    d := 0;
    ghost var shifted := id;
    while rest != 0
      invariant rest == Pop(m, shifted) && d + DepthOf(m, shifted) == DepthOf(m, id)
      decreases rest
    {
      if Pop(m, rest) != 0 { PopSmaller(m, rest); }
      shifted := rest;
      rest, d := Pop(m, rest), d + 1;
    }
  }

  lemma {:induction false} EncodePositive(m: Layout, p: Path)
    requires m.Ok()
    ensures Encode(m, p) >= 1
  {
    RootIsSmall(m);
    if p != [] {
      EncodePositive(m, p[..|p| - 1]);
      assert Encode(m, p[..|p| - 1]) * m.Fan() >= 1;
    }
  }

  /** The depth of an id is the number of its groups. */
  lemma {:induction false} DepthOfEncoded(m: Layout, p: Path)
    requires m.Ok() && Digits(m, p)
    ensures DepthOf(m, Encode(m, p)) == |p|
  {
    RootIsSmall(m);
    if p != [] {
      var front := p[..|p| - 1];
      DepthOfEncoded(m, front);
      PushPop(m, Encode(m, front), p[|p| - 1]);
      EncodePositive(m, front);
    } else {
      DivUnique(m.Root(), m.Fan(), 0, m.Root());
    }
  }

  /** Different paths have different ids, so a map from ids is a map from paths. */
  lemma {:induction false} EncodeInjective(m: Layout, p: Path, q: Path)
    requires m.Ok() && Digits(m, p) && Digits(m, q) && Encode(m, p) == Encode(m, q)
    ensures p == q
  {
    DepthOfEncoded(m, p);
    DepthOfEncoded(m, q);
    if p != [] {
      var k := |p| - 1;
      PushPop(m, Encode(m, p[..k]), p[k]);
      PushPop(m, Encode(m, q[..k]), q[k]);
      EncodeInjective(m, p[..k], q[..k]);
      assert p == p[..k] + [p[k]] && q == q[..k] + [q[k]];
    }
  }

  /** Weight of the group n levels above the lowest. */
  function Level(m: Layout, n: nat): (w: nat)
    ensures w >= 1
  {
    if n == 0 then 1 else Level(m, n - 1) * m.Fan()
  }

  lemma {:induction false} LevelIsShift(m: Layout, n: nat)
    ensures Level(m, n) == Pow2(n * m.dim)
  {
    if n == 0 {
      assert 0 * m.dim == 0;
    } else {
      LevelIsShift(m, n - 1);
      Pow2Add((n - 1) * m.dim, m.dim);
      Distribute(m.dim, n - 1, 1);
    }
  }

  lemma PushBelow(id: nat, fan: nat, digit: nat, a: nat, b: nat)
    requires digit < fan && id + 1 <= a * b
    ensures id * fan + digit + 1 <= a * (b * fan)
  {
    assert (id + 1) * fan <= (a * b) * fan;
    assert (id + 1) * fan == id * fan + fan;
    assert (a * b) * fan == a * (b * fan);
  }

  lemma {:induction false} EncodeBound(m: Layout, p: Path)
    requires m.Ok() && Digits(m, p)
    ensures Encode(m, p) + 1 <= (2 * m.Root()) * Level(m, |p|)
  {
    if p != [] {
      var k := |p| - 1;
      EncodeBound(m, p[..k]);
      PushBelow(Encode(m, p[..k]), m.Fan(), p[k], 2 * m.Root(), Level(m, k));
    }
  }

  /** Ids of admissible depth fit the integer. */
  lemma EncodeFits(m: Layout, p: Path)
    requires m.Ok() && Digits(m, p) && |p| <= m.MaxDepth()
    ensures Encode(m, p) < Pow2(m.bits)
  {
    EncodeBound(m, p);
    LevelIsShift(m, |p|);
    var top := (m.bits - 1) % m.dim;
    Pow2Add(top + 1, |p| * m.dim);
    DepthBits(m, |p|);
    Pow2Monotone(top + 1 + |p| * m.dim, m.bits);
  }

  lemma DepthBits(m: Layout, n: nat)
    requires m.Ok() && n <= m.MaxDepth()
    ensures (m.bits - 1) % m.dim + 1 + n * m.dim <= m.bits
  {
    Distribute(m.dim, n, m.MaxDepth() - n);
    assert m.bits - 1 == m.dim * m.MaxDepth() + (m.bits - 1) % m.dim;
  }

  lemma {:induction false} Pow2Monotone(a: nat, b: nat)
    requires a <= b
    ensures Pow2(a) <= Pow2(b)
  {
    if a < b { Pow2Monotone(a, b - 1); }
  }

  /** Pops down to the given depth; shallower ids stay. */
  method Truncate(m: Layout, id: nat, toDepth: nat) returns (r: nat)
    requires m.Ok()
    ensures r == if DepthOf(m, id) < toDepth then id else id / Level(m, DepthOf(m, id) - toDepth)
  {
    var d := Depth(m, id);
    if d < toDepth {
      return id;
    }
    LevelIsShift(m, d - toDepth);
    r := Quotient(id, Pow2((d - toDepth) * m.dim));
  }

  lemma DropLevel(m: Layout, p: Path, n: nat)
    requires m.Ok() && Digits(m, p) && p != []
    ensures Encode(m, p) / Level(m, n + 1) == Encode(m, p[..|p| - 1]) / Level(m, n)
  {
    PushPop(m, Encode(m, p[..|p| - 1]), p[|p| - 1]);
    DivDiv(Encode(m, p), m.Fan(), Level(m, n));
  }

  /** Truncating cuts the path. */
  lemma {:induction false} TruncateCutsPath(m: Layout, p: Path, n: nat)
    requires m.Ok() && Digits(m, p) && n <= |p|
    ensures Encode(m, p) / Level(m, n) == Encode(m, p[..|p| - n])
    decreases n
  {
    if n == 0 {
      assert p[..|p|] == p;
    } else {
      var k := |p| - 1;
      DropLevel(m, p, n - 1);
      TruncateCutsPath(m, p[..k], n - 1);
      assert p[..k][..k - (n - 1)] == p[..|p| - n];
    }
  }

  // ----- bits of an id ---------------------------------------------------------------------------

  lemma {:induction false} EncodeAtLeast(m: Layout, p: Path)
    requires m.Ok()
    ensures m.Root() * Level(m, |p|) <= Encode(m, p)
  {
    if p != [] {
      var k := |p| - 1;
      EncodeAtLeast(m, p[..k]);
      PushAbove(Encode(m, p[..k]), m.Fan(), p[k], m.Root(), Level(m, k));
    }
  }

  lemma PushAbove(id: nat, fan: nat, digit: nat, a: nat, b: nat)
    requires a * b <= id
    ensures a * (b * fan) <= id * fan + digit
  {
    assert (a * b) * fan <= id * fan;
    assert (a * b) * fan == a * (b * fan);
  }

  /** The marker is the highest bit of an id; that of the deepest ids is the integer's. */
  lemma MarkerOnTop(m: Layout, p: Path)
    requires m.Ok() && Digits(m, p)
    ensures
      var marker := Pow2((m.bits - 1) % m.dim + |p| * m.dim);
      marker <= Encode(m, p) < 2 * marker && (|p| == (m.bits - 1) / m.dim ==> marker == Pow2(m.bits - 1))
  {
    EncodeAtLeast(m, p);
    EncodeBound(m, p);
    LevelIsShift(m, |p|);
    Pow2Add((m.bits - 1) % m.dim, |p| * m.dim);
    Twice(m.Root(), Level(m, |p|));
    if |p| == (m.bits - 1) / m.dim { Parts(m.bits - 1, m.dim); }
  }

  lemma Twice(a: nat, b: nat)
    ensures (2 * a) * b == 2 * (a * b)
  {}

  lemma Parts(x: nat, y: nat)
    requires y > 0
    ensures x % y + x / y * y == x
  {}

  /** Bit j of the group k levels above the lowest. */
  ghost function GroupBit(m: Layout, id: nat, k: nat, j: nat): (b: nat)
    ensures b < 2
  {
    Bit(id, k * m.dim + j)
  }

  lemma GroupBitOf(m: Layout, p: Path, k: nat, j: nat)
    requires m.Ok() && Digits(m, p) && k <= |p|
    ensures GroupBit(m, Encode(m, p), k, j) == Bit(Encode(m, p[..|p| - k]), j)
  {
    TruncateCutsPath(m, p, k);
    LevelIsShift(m, k);
    ShiftShift(Encode(m, p), k * m.dim, j);
  }

  lemma {:induction false} BitOfPow2(n: nat, t: nat)
    ensures Bit(Pow2(n), t) == if t == n then 1 else 0
  {
    if t <= n {
      Pow2Add(t, n - t);
      DivUnique(Pow2(n), Pow2(t), Pow2(n - t), 0);
    } else {
      Pow2Add(n, t - n);
      AtLeastOnce(Pow2(n), Pow2(t - n - 1));
      assert Pow2(t) == Pow2(n) * (2 * Pow2(t - n - 1)) == 2 * (Pow2(n) * Pow2(t - n - 1));
      DivUnique(Pow2(n), Pow2(t), 0, Pow2(n));
    }
  }

  /** id is the id of depth n for a point: its groups hold the bits of the coordinates, the
      deepest group the lowest ones, coordinate 0 lowest, and above them is the marker. */
  ghost predicate HoldsBits(m: Layout, c: seq<nat>, n: nat, id: nat)
    requires m.Ok() && |c| == m.dim && n <= (m.bits - 1) / m.dim
  {
    (forall k: nat, j: nat :: k < n && j < m.dim ==>
      GroupBit(m, id, k, j) == Bit(c[j], (m.bits - 1) / m.dim - n + k)) &&
    forall t: nat :: GroupBit(m, id, n, t) == if t == (m.bits - 1) % m.dim then 1 else 0
  }

  lemma PathHoldsBits(m: Layout, c: seq<nat>, n: nat)
    requires m.Ok() && |c| == m.dim && n <= (m.bits - 1) / m.dim
    ensures HoldsBits(m, c, n, Encode(m, PathOf(m, c, n)))
  {
    var p := PathOf(m, c, n);
    var id := Encode(m, p);
    forall k: nat, j: nat | k < n && j < m.dim
      ensures GroupBit(m, id, k, j) == Bit(c[j], (m.bits - 1) / m.dim - n + k)
    {
      GroupBitOf(m, p, k, j);
      LastGroup(m, p[..n - k]);
      assert p[..n - k][n - k - 1] == p[n - 1 - k];
      PathOfAt(m, c, n, k);
      InterleavedBit(c, m.MaxDepth() - n + k, m.dim, j);
    }
    forall t: nat ensures GroupBit(m, id, n, t) == if t == (m.bits - 1) % m.dim then 1 else 0 {
      GroupBitOf(m, p, n, t);
      assert p[..0] == [];
      BitOfPow2((m.bits - 1) % m.dim, t);
    }
  }

  // ----- coordinates -----------------------------------------------------------------------------

  /** Bit i of the first n coordinates, coordinate 0 lowest. */
  ghost function Interleaved(c: seq<nat>, i: nat, n: nat): (r: nat)
    requires n <= |c|
    ensures r < Pow2(n)
  {
    if n == 0 then 0 else Interleaved(c, i, n - 1) + Bit(c[n - 1], i) * Pow2(n - 1)
  }

  /** The path to depth n: the highest bits of the coordinates come first. */
  ghost function PathOf(m: Layout, c: seq<nat>, n: nat): (p: Path)
    requires m.Ok() && |c| == m.dim && n <= m.MaxDepth()
    ensures |p| == n && Digits(m, p)
  {
    if n == 0 then [] else PathOf(m, c, n - 1) + [Interleaved(c, m.MaxDepth() - n, m.dim)]
  }

  lemma {:induction false} PathOfPrefix(m: Layout, c: seq<nat>, n: nat, k: nat)
    requires m.Ok() && |c| == m.dim && k <= n <= m.MaxDepth()
    ensures PathOf(m, c, n)[..k] == PathOf(m, c, k)
  {
    if k < n { PathOfPrefix(m, c, n - 1, k); }
  }

  lemma {:induction false} PathOfAt(m: Layout, c: seq<nat>, n: nat, t: nat)
    requires m.Ok() && |c| == m.dim && t < n <= m.MaxDepth()
    ensures PathOf(m, c, n)[n - 1 - t] == Interleaved(c, m.MaxDepth() - n + t, m.dim)
  {
    PathOfPrefix(m, c, n, n - t);
  }

  /** The k lowest groups of an id whose lowest group holds the bits at lo. */
  ghost function Groups(m: Layout, c: seq<nat>, lo: nat, k: nat): nat
    requires |c| == m.dim
    decreases k
  {
    if k == 0 then 0 else Groups(m, c, lo, k - 1) + Interleaved(c, lo + (k - 1), m.dim) * Level(m, k - 1)
  }

  lemma {:induction false} GroupsFront(m: Layout, c: seq<nat>, lo: nat, k: nat)
    requires |c| == m.dim && k > 0
    ensures Groups(m, c, lo, k) == Interleaved(c, lo, m.dim) + Groups(m, c, lo + 1, k - 1) * m.Fan()
    decreases k
  {
    if k == 1 {
      assert Groups(m, c, lo, 0) == 0 && Groups(m, c, lo + 1, 0) == 0;
    } else {
      var d, w := Interleaved(c, lo + (k - 1), m.dim), Level(m, k - 2);
      GroupsFront(m, c, lo, k - 1);
      Factor(Groups(m, c, lo + 1, k - 2), d, w, m.Fan());
    }
  }

  lemma EncodeSnoc(m: Layout, p: Path, digit: nat)
    requires m.Ok()
    ensures Encode(m, p + [digit]) == Encode(m, p) * m.Fan() + digit
  {
    assert (p + [digit])[..|p|] == p;
  }

  lemma EncodedNext(m: Layout, c: seq<nat>, n: nat)
    requires m.Ok() && |c| == m.dim && 0 < n <= m.MaxDepth()
    ensures Encode(m, PathOf(m, c, n)) == Encode(m, PathOf(m, c, n - 1)) * m.Fan() +
      Interleaved(c, m.MaxDepth() - n, m.dim)
  {
    EncodeSnoc(m, PathOf(m, c, n - 1), Interleaved(c, m.MaxDepth() - n, m.dim));
  }

  lemma {:induction false} EncodedPath(m: Layout, c: seq<nat>, n: nat, lo: nat)
    requires m.Ok() && |c| == m.dim && lo + n == m.MaxDepth()
    ensures Encode(m, PathOf(m, c, n)) == m.Root() * Level(m, n) + Groups(m, c, lo, n)
    decreases n
  {
    if n > 0 {
      EncodedPath(m, c, n - 1, lo + 1);
      GroupsFront(m, c, lo, n);
      EncodedNext(m, c, n);
      Horner(Encode(m, PathOf(m, c, n - 1)), m.Root(), Level(m, n - 1), Groups(m, c, lo + 1, n - 1), m.Fan(),
        Interleaved(c, lo, m.dim), Encode(m, PathOf(m, c, n)), Level(m, n), Groups(m, c, lo, n));
    }
  }

  /** Ors one bit of every coordinate into a group of zeros; or on zeros is addition. */
  method AddGroup(m: Layout, c: seq<nat>, i: nat, id: nat, shift: nat) returns (id': nat)
    requires |c| == m.dim
    ensures id' == id + Interleaved(c, i, m.dim) * Pow2(shift)
  {
    id' := id;
    var j := 0;
    while j < m.dim
      invariant 0 <= j <= m.dim && id' == id + Interleaved(c, i, j) * Pow2(shift)
    {
      Pow2Add(j, shift);
      Factor(Interleaved(c, i, j), Bit(c[j], i), Pow2(j), Pow2(shift));
      id' := id' + Bit(c[j], i) * Pow2(shift + j);
      j := j + 1;
    }
  }

  /** The id of the branch at the given depth that a point falls into. */
  method FromCoordinates(m: Layout, c: seq<nat>, depth: nat) returns (id: nat)
    requires m.Ok() && |c| == m.dim && depth <= m.MaxDepth()
    ensures id == Encode(m, PathOf(m, c, depth)) && HoldsBits(m, c, depth, id)
  {
    var lo := m.MaxDepth() - depth;
    id := Pow2(depth * m.dim + (m.bits - 1) % m.dim);
    Pow2Add(depth * m.dim, (m.bits - 1) % m.dim);
    LevelIsShift(m, depth);
    var i, k := lo, 0;
    while i < m.MaxDepth()
      invariant lo <= i <= m.MaxDepth() && k == i - lo
      invariant id == m.Root() * Level(m, depth) + Groups(m, c, lo, k)
    {
      LevelIsShift(m, k);
      id := AddGroup(m, c, i, id, k * m.dim);
      i, k := i + 1, k + 1;
    }
    EncodedPath(m, c, depth, lo);
    PathHoldsBits(m, c, depth);
  }

  /** Coordinate j read off the n lowest groups of a path. */
  ghost function Gathered(p: Path, j: nat, n: nat): nat
    requires n <= |p|
  {
    if n == 0 then 0 else Gathered(p, j, n - 1) + Bit(p[|p| - n], j) * Pow2(n - 1)
  }

  /** Gathers the bits of each coordinate and moves them to the top. */
  method Coordinates(m: Layout, id: nat, ghost p: Path) returns (c: seq<nat>)
    requires m.Ok() && Digits(m, p) && |p| <= m.MaxDepth() && id == Encode(m, p)
    ensures |c| == m.dim
    ensures forall j :: 0 <= j < m.dim ==> c[j] == Gathered(p, j, |p|) * Pow2(m.MaxDepth() - |p|)
  {
    c := seq(m.dim, _ => 0);
    var rest, d := id, 0;
    assert p[..|p|] == p;
    while Pop(m, rest) != 0
      invariant 0 <= d <= |p| && |c| == m.dim && rest == Encode(m, p[..|p| - d])
      invariant forall j :: 0 <= j < m.dim ==> c[j] == Gathered(p, j, d)
      decreases |p| - d
    {
      LastGroupOf(m, p, d, rest);
      c := AddBits(m, c, rest, d, p);
      rest, d := Pop(m, rest), d + 1;
    }
    LastGroup(m, p[..|p| - d]);
    c := ScaleUp(c, Pow2(m.MaxDepth() - d));
  }

  method ScaleUp(c: seq<nat>, w: nat) returns (c': seq<nat>)
    ensures |c'| == |c| && forall j :: 0 <= j < |c| ==> c'[j] == c[j] * w
  {
    c' := seq(|c|, j requires 0 <= j < |c| => c[j] * w);
  }

  lemma LastGroupOf(m: Layout, p: Path, d: nat, id: nat)
    requires m.Ok() && Digits(m, p) && d <= |p| && id == Encode(m, p[..|p| - d]) && Pop(m, id) != 0
    ensures d < |p| && Pop(m, id) == Encode(m, p[..|p| - (d + 1)])
    ensures SameLowBits(m, id, p[|p| - 1 - d])
  {
    var q := p[..|p| - d];
    LastGroup(m, q);
    assert q[..|q| - 1] == p[..|p| - (d + 1)];
  }

  ghost predicate SameLowBits(m: Layout, x: nat, y: nat) {
    forall j :: 0 <= j < m.dim ==> Bit(x, j) == Bit(y, j)
  }

  lemma LastGroup(m: Layout, p: Path)
    requires m.Ok() && Digits(m, p)
    ensures Pop(m, Encode(m, p)) == 0 <==> p == []
    ensures p != [] ==>
      Pop(m, Encode(m, p)) == Encode(m, p[..|p| - 1]) &&
      forall j :: 0 <= j < m.dim ==> Bit(Encode(m, p), j) == Bit(p[|p| - 1], j)
  {
    RootIsSmall(m);
    if p == [] {
      DivUnique(m.Root(), m.Fan(), 0, m.Root());
    } else {
      var front := p[..|p| - 1];
      PushPop(m, Encode(m, front), p[|p| - 1]);
      EncodePositive(m, front);
      forall j | 0 <= j < m.dim ensures Bit(Encode(m, p), j) == Bit(p[|p| - 1], j) {
        AddHigh(p[|p| - 1], Encode(m, front), m.dim, j);
      }
    }
  }

  method AddBits(m: Layout, c: seq<nat>, rest: nat, d: nat, ghost p: Path) returns (c': seq<nat>)
    requires |c| == m.dim && d < |p|
    requires SameLowBits(m, rest, p[|p| - 1 - d])
    requires forall j :: 0 <= j < m.dim ==> c[j] == Gathered(p, j, d)
    ensures |c'| == m.dim && forall j :: 0 <= j < m.dim ==> c'[j] == Gathered(p, j, d + 1)
  {
    c' := c;
    var j := 0;
    while j < m.dim
      invariant 0 <= j <= m.dim && |c'| == m.dim
      invariant forall k :: 0 <= k < j ==> c'[k] == Gathered(p, k, d + 1)
      invariant forall k :: j <= k < m.dim ==> c'[k] == c[k]
    {
      c' := c'[j := c'[j] + Bit(rest, j) * Pow2(d)];
      j := j + 1;
    }
  }

  lemma {:induction false} InterleavedBit(c: seq<nat>, i: nat, n: nat, j: nat)
    requires j < n <= |c|
    ensures Bit(Interleaved(c, i, n), j) == Bit(c[j], i)
  {
    if j == n - 1 {
      TopBit(Interleaved(c, i, j), Bit(c[j], i), j);
    } else {
      InterleavedBit(c, i, n - 1, j);
      AddHigh(Interleaved(c, i, n - 1), Bit(c[n - 1], i), n - 1, j);
    }
  }

  lemma {:induction false} GatheredBits(m: Layout, c: seq<nat>, n: nat, j: nat, k: nat)
    requires m.Ok() && |c| == m.dim && k <= n <= m.MaxDepth() && j < m.dim
    ensures Gathered(PathOf(m, c, n), j, k) == Bits(c[j], m.MaxDepth() - n, k)
  {
    if k > 0 {
      GatheredBits(m, c, n, j, k - 1);
      PathOfAt(m, c, n, k - 1);
      InterleavedBit(c, m.MaxDepth() - n + (k - 1), m.dim, j);
      BitsSnoc(c[j], m.MaxDepth() - n, k - 1);
    } else {
      assert Bits(c[j], m.MaxDepth() - n, 0) == 0;
    }
  }

  /** Reading coordinates back gives the corner of the branch: each coordinate with the
      bits below the branch's depth cleared. At full depth nothing is lost. */
  lemma CoordinatesOfPath(m: Layout, c: seq<nat>, n: nat, j: nat)
    requires m.Ok() && |c| == m.dim && n <= m.MaxDepth() && j < m.dim && c[j] < Pow2(m.MaxDepth())
    ensures
      var cell := Pow2(m.MaxDepth() - n);
      Gathered(PathOf(m, c, n), j, n) * cell == c[j] / cell * cell
    ensures n == m.MaxDepth() ==> Gathered(PathOf(m, c, n), j, n) * Pow2(m.MaxDepth() - n) == c[j]
  {
    var lo := m.MaxDepth() - n;
    GatheredBits(m, c, n, j, n);
    BitsAreRemainder(c[j], lo, n);
    Pow2Add(lo, n);
    ShiftShift(c[j], lo, n);
    DivUnique(c[j], Pow2(lo + n), 0, c[j]);
    assert c[j] / Pow2(lo) / Pow2(n) == 0;
    assert c[j] / Pow2(lo) < Pow2(n);
  }
}
