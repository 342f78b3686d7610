/** The direct, single- and double-indirect pointer tree of an inode, and who owns its blocks. */
module PointerTree {
  import opened Bytes
  import opened Geometry
  import opened Volumes

  /** `pointers`: how many 32-bit pointers fill a block. */
  function Pointers(v: Volume): (p: nat)
    requires Shape(v)
    ensures 256 <= p <= 1024 && 4 * p == v.geo.blockSize
  {
    v.geo.blockSize / 4
  }

  /** First logical block that a file cannot grow to. */
  function MaxLogical(v: Volume): nat
    requires Shape(v)
  {
    12 + Pointers(v) + Pointers(v) * Pointers(v)
  }

  function ReadPointer(v: Volume, block: nat, index: nat): (r: Option<nat>)
    requires Shape(v)
    ensures r.Some? ==> r.value < 0x1_0000_0000
  {
    if block == 0 || index >= Pointers(v) || !Plain(v, block) then None
    else Some(Word(v.store[block], index))
  }

  /** Index in the top table, and in the table it names, for a block of the double-indirect region. */
  function Top(v: Volume, logical: nat): nat
    requires Shape(v) && 12 + Pointers(v) <= logical
  {
    (logical - 12 - Pointers(v)) / Pointers(v)
  }

  function Low(v: Volume, logical: nat): nat
    requires Shape(v) && 12 + Pointers(v) <= logical
  {
    DivMod(logical - 12 - Pointers(v), Pointers(v));
    (logical - 12 - Pointers(v)) % Pointers(v)
  }

  /** inode_block beyond the double-indirect region; nothing in the engine ever grows a file there. */
  function TripleBlock(v: Volume, node: Inode, m: nat): Option<nat>
    requires Shape(v)
  {
    var p := Pointers(v);
    if m >= p * p * p then None
    else
      match ReadPointer(v, node.triply, m / (p * p))
      case None => None
      case Some(first) =>
        match ReadPointer(v, first, m / p % p)
        case None => None
        case Some(second) => ReadPointer(v, second, m % p)
  }

  /** inode_block. */
  function InodeBlock(v: Volume, node: Inode, logical: nat): Option<nat>
    requires Shape(v) && node.Fits()
  {
    var p := Pointers(v);
    if logical < 12 then Some(node.direct[logical])
    else if logical - 12 < p then ReadPointer(v, node.indirect, logical - 12)
    else if logical - 12 - p < p * p then
      match ReadPointer(v, node.doubly, Top(v, logical))
      case None => None
      case Some(first) => ReadPointer(v, first, Low(v, logical))
    else TripleBlock(v, node, logical - 12 - p - p * p)
  }

  /** The physical block behind a logical one; 0, as everywhere in the engine, when there is none. */
  function Mapped(v: Volume, node: Inode, logical: nat): nat
    requires Shape(v) && node.Fits()
  {
    match InodeBlock(v, node, logical)
    case None => 0
    case Some(b) => b
  }

  /** Pointer `index` of table `block`, 0 when the table is missing. */
  function Entry(v: Volume, block: nat, index: nat): (r: nat)
    requires Shape(v)
    ensures r < 0x1_0000_0000
  {
    if block == 0 || index >= Pointers(v) || !Plain(v, block) then 0 else Word(v.store[block], index)
  }

  lemma DivBelow(m: nat, p: nat, q: nat)
    requires p > 0 && m < q * p
    ensures m / p < q && m % p < p
  {
    DivMod(m, p);
    if m / p >= q {
      MulMono(q, m / p, p);
    }
  }

  lemma TopLow(v: Volume, x: nat)
    requires Shape(v) && 12 + Pointers(v) <= x < MaxLogical(v)
    ensures Top(v, x) < Pointers(v) && Low(v, x) < Pointers(v)
    ensures x == 12 + Pointers(v) + Top(v, x) * Pointers(v) + Low(v, x)
  {
    DivBelow(x - 12 - Pointers(v), Pointers(v), Pointers(v));
    DivMod(x - 12 - Pointers(v), Pointers(v));
  }

  lemma TopLowUnique(v: Volume, x: nat, t: nat, k: nat)
    requires Shape(v) && k < Pointers(v) && x == 12 + Pointers(v) + t * Pointers(v) + k
    ensures 12 + Pointers(v) <= x && Top(v, x) == t && Low(v, x) == k
  {
    MulMono(0, t, Pointers(v));
    DivUnique(x - 12 - Pointers(v), Pointers(v), t);
  }

  lemma MappedDirect(v: Volume, node: Inode, x: nat)
    requires Shape(v) && node.Fits() && x < 12
    ensures Mapped(v, node, x) == node.direct[x]
  {
  }

  lemma MappedIndirect(v: Volume, node: Inode, x: nat)
    requires Shape(v) && node.Fits() && 12 <= x < 12 + Pointers(v)
    ensures Mapped(v, node, x) == Entry(v, node.indirect, x - 12)
  {
  }

  lemma MappedDoubly(v: Volume, node: Inode, x: nat)
    requires Shape(v) && node.Fits() && 12 + Pointers(v) <= x < MaxLogical(v)
    ensures Top(v, x) < Pointers(v) && Low(v, x) < Pointers(v)
    ensures Mapped(v, node, x) == Entry(v, Entry(v, node.doubly, Top(v, x)), Low(v, x))
  {
    hide Word;
    DivBelow(x - 12 - Pointers(v), Pointers(v), Pointers(v));
  }

  /** Every logical block below MaxLogical is found by one of the three rules. */
  lemma MappedRules(v: Volume, node: Inode, x: nat)
    requires Shape(v) && node.Fits() && x < MaxLogical(v)
    ensures x < 12 ==> Mapped(v, node, x) == node.direct[x]
    ensures 12 <= x < 12 + Pointers(v) ==> Mapped(v, node, x) == Entry(v, node.indirect, x - 12)
    ensures 12 + Pointers(v) <= x ==>
      && Top(v, x) < Pointers(v) && Low(v, x) < Pointers(v)
      && Mapped(v, node, x) == Entry(v, Entry(v, node.doubly, Top(v, x)), Low(v, x))
  {
    hide Mapped, Top, Low, Entry;
    if x < 12 {
      MappedDirect(v, node, x);
    } else if x < 12 + Pointers(v) {
      MappedIndirect(v, node, x);
    } else {
      MappedDoubly(v, node, x);
    }
  }

  /** And beyond it, where the engine follows three tables but never puts any: entry `c` of the table at entry `b` of
      the one at entry `a` of the triple-indirect table. There is nothing behind that. */
  lemma TripleRules(v: Volume, node: Inode, a: nat, b: nat, c: nat, x: nat)
    requires Shape(v) && node.Fits() && a < Pointers(v) && b < Pointers(v) && c < Pointers(v)
    ensures Mapped(v, node, MaxLogical(v) + (a * Pointers(v) + b) * Pointers(v) + c)
         == Entry(v, Entry(v, Entry(v, node.triply, a), b), c)
    ensures x >= MaxLogical(v) + Pointers(v) * Pointers(v) * Pointers(v) ==> Mapped(v, node, x) == 0
  {
    hide Word;
    var p := Pointers(v);
    var m := (a * p + b) * p + c;
    Digits3(a, b, c, p);
    assert MaxLogical(v) + m - 12 - p - p * p == m;
    assert InodeBlock(v, node, MaxLogical(v) + m) == TripleBlock(v, node, m);
  }

  lemma Digits3(a: nat, b: nat, c: nat, p: nat)
    requires a < p && b < p && c < p
    ensures var m := (a * p + b) * p + c;
      m < p * p * p && p * p > 0 && m / (p * p) == a && m / p % p == b && m % p == c
  {
    Below(a, p, b, p);
    Below(a * p + b, p * p, c, p);
    Below(b, p, c, p);
    Digits2(a, p, b);
    Digits2(a * p + b, p, c);
    Digits2(a, p * p, b * p + c);
    Regroup(a, b, c, p);
  }

  lemma Digits2(q: nat, d: nat, r: nat)
    requires r < d
    ensures (q * d + r) / d == q && (q * d + r) % d == r
  {
    DivUnique(q * d + r, d, q);
  }

  lemma Below(a: nat, p: nat, b: nat, q: nat)
    requires a < p && b < q
    ensures a * q + b < p * q
  {
    MulMono(a + 1, p, q);
    assert (a + 1) * q == a * q + q;
  }

  lemma Regroup(a: nat, b: nat, c: nat, p: nat)
    ensures (a * p + b) * p + c == a * (p * p) + (b * p + c)
  {
  }

  lemma EntryWritten(v: Volume, b: nat, k: nat, p: nat, c: nat, j: nat)
    requires Shape(v) && Plain(v, b) && k < Pointers(v) && j < Pointers(v) && p < 0x1_0000_0000
    ensures Entry(StoreBlock(v, b, PutWord(v.store[b], k, p)), c, j)
         == if c == b && j == k then p else Entry(v, c, j)
  {
    hide Word, PutWord;
    WordOfPut(v.store[b], k, p, j);
  }

  function StoreBlock(v: Volume, b: nat, x: Block): (r: Volume)
    requires Shape(v) && Plain(v, b) && |x| == v.geo.blockSize
    ensures Shape(r) && r.geo == v.geo
  {
    v.(store := v.store[b := x])
  }

  /** Block `b`, or a newly allocated one when the pointer `b` is still zero. */
  function EnsureBlock(v: Volume, b: nat): (a: Allocation)
    requires Shape(v)
    ensures Shape(a.v) && a.v.geo == v.geo
  {
    if b == 0 then AllocateBlock(v) else Allocation(v, Some(b))
  }

  /** The second-level table at `index` of table `table`, allocated and linked if absent. */
  function EnsureChild(v: Volume, table: nat, index: nat): (a: Allocation)
    requires Shape(v)
    ensures Shape(a.v) && a.v.geo == v.geo
  {
    match ReadPointer(v, table, index)
    case None => Allocation(v, None)
    case Some(child) =>
      if child != 0 then Allocation(v, Some(child))
      else
        var a := AllocateBlock(v);
        if a.found.None? || !Plain(a.v, table) || a.found.value >= 0x1_0000_0000 then Allocation(a.v, None)
        else Allocation(StoreBlock(a.v, table, PutWord(a.v.store[table], index, a.found.value)), a.found)
  }

  datatype Growth = Growth(v: Volume, node: Inode, ok: bool)

  /** Write pointer `p` at `index` of the table in block `b`. */
  function WritePointer(v: Volume, node: Inode, b: nat, index: nat, p: nat): Growth
    requires Shape(v) && index < Pointers(v) && p < 0x1_0000_0000
  {
    if !Plain(v, b) then Growth(v, node, false)
    else Growth(StoreBlock(v, b, PutWord(v.store[b], index, p)), node, true)
  }

  /** set_inode_block. */
  function SetInodeBlock(v: Volume, node: Inode, logical: nat, physical: nat): (r: Growth)
    requires Shape(v) && node.Fits() && physical < 0x1_0000_0000
    ensures Shape(r.v) && r.v.geo == v.geo && r.node.Fits()
  {
    var p := Pointers(v);
    if logical < 12 then Growth(v, node.(direct := node.direct[logical := physical]), true)
    else if logical - 12 < p then
      var a := EnsureBlock(v, node.indirect);
      if a.found.None? then Growth(a.v, node, false)
      else WritePointer(a.v, node.(indirect := a.found.value), a.found.value, logical - 12, physical)
    else if logical - 12 - p < p * p then
      TopLow(v, logical);
      var a := EnsureBlock(v, node.doubly);
      if a.found.None? then Growth(a.v, node, false)
      else
        var node' := node.(doubly := a.found.value);
        var c := EnsureChild(a.v, node'.doubly, Top(v, logical));
        if c.found.None? then Growth(c.v, node', false)
        else WritePointer(c.v, node', c.found.value, Low(v, logical), physical)
    else Growth(v, node, false)
  }
}
