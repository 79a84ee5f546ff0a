/** The byte encoding behind the ledger digest, and why it tells ledgers apart. */
module Ledger {
  import opened Wrappers
  import opened Orders
  import opened BudgetProtocol
  import opened BudgetRecovery
  import opened Powers
  import opened Division

  type bytes = seq<byte>

  /** "calyldg1" and a zero byte. */
  const LEDGER_TAG: bytes := [0x63, 0x61, 0x6c, 0x79, 0x6c, 0x64, 0x67, 0x31, 0x00]

  /** "calybris.ledger.wal-watermark.v1" and a zero byte. */
  const WATERMARK_TAG: bytes :=
    [0x63, 0x61, 0x6c, 0x79, 0x62, 0x72, 0x69, 0x73, 0x2e, 0x6c, 0x65, 0x64, 0x67, 0x65, 0x72, 0x2e,
     0x77, 0x61, 0x6c, 0x2d, 0x77, 0x61, 0x74, 0x65, 0x72, 0x6d, 0x61, 0x72, 0x6b, 0x2e, 0x76, 0x31,
     0x00]

  // ----- Integers -----

  /** The `n` low bytes of a number, lowest first. */
  function LittleEndian(v: nat, n: nat): (b: bytes)
    ensures |b| == n
  {
    if n == 0 then [] else [v % 256] + LittleEndian(v / 256, n - 1)
  }

  lemma {:induction false} LittleEndianInjective(u: nat, v: nat, n: nat)
    requires u < Pow256(n) && v < Pow256(n) && LittleEndian(u, n) == LittleEndian(v, n)
    ensures u == v
    decreases n
  {
    if n > 0 {
      var a, b := LittleEndian(u, n), LittleEndian(v, n);
      assert a[0] == u % 256 && b[0] == v % 256;
      assert a[1..] == LittleEndian(u / 256, n - 1) && b[1..] == LittleEndian(v / 256, n - 1);
      LittleEndianInjective(u / 256, v / 256, n - 1);
    }
  }

  /** Only the low bytes of a number are written. */
  lemma {:induction false} LittleEndianTruncates(v: nat, n: nat)
    ensures LittleEndian(v, n) == LittleEndian(v % Pow256(n), n)
  {
    if n > 0 {
      var m, r := Pow256(n - 1), v % Pow256(n);
      DivideTwice(v, m);
      LittleEndianTruncates(v / 256, n - 1);
      assert LittleEndian(r, n) == [r % 256] + LittleEndian(r / 256, n - 1);
    }
  }

  lemma DivideTwice(v: nat, m: nat)
    requires 0 < m
    ensures (v % (256 * m)) % 256 == v % 256
    ensures (v % (256 * m)) / 256 == (v / 256) % m
  {
    var q := v / 256;
    var k, s := q / m, q % m;
    assert v == 256 * q + v % 256 && q == m * k + s;
    var r := 256 * s + v % 256;
    assert 256 * (m * k) == (256 * m) * k;
    assert v == (256 * m) * k + r && 0 <= r < 256 * m;
    DivUnique(v, 256 * m, k, r);
  }

  lemma Widths()
    ensures Pow256(4) == 0x1_0000_0000 && Pow256(8) == U64_MAX + 1
  {
    assert Pow256(6) == 256 * Pow256(5) && Pow256(5) == 256 * Pow256(4);
    assert Pow256(8) == 256 * Pow256(7) && Pow256(7) == 256 * Pow256(6);
  }

  /** The eight bytes of a signed amount, in two's complement. */
  function Amount(v: int): (b: bytes)
    ensures |b| == 8
  {
    LittleEndian(v % (U64_MAX + 1), 8)
  }

  lemma AmountInjective(u: int, v: int)
    requires IsI64(u) && IsI64(v) && Amount(u) == Amount(v)
    ensures u == v
  {
    Widths();
    LittleEndianInjective(u % (U64_MAX + 1), v % (U64_MAX + 1), 8);
  }

  // ----- Rows -----

  type Utf8 = string -> bytes

  ghost predicate Injective(utf8: Utf8) {
    forall a, b :: utf8(a) == utf8(b) ==> a == b
  }

  function Amounts(r: TenantLedger): (b: bytes)
    ensures |b| == 32
  {
    Amount(r.initial) + Amount(r.remaining) + Amount(r.reserved) + Amount(r.committed)
  }

  /** `update_ledger`. */
  function RowBytes(utf8: Utf8, r: TenantLedger): bytes {
    LittleEndian(|utf8(r.tenant)|, 4) + utf8(r.tenant) + Amounts(r)
  }

  lemma Cut<T>(a: seq<T>, s: seq<T>, b: seq<T>, t: seq<T>)
    requires a + s == b + t && |a| == |b|
    ensures a == b && s == t
  {
    assert a == (a + s)[..|a|] == (b + t)[..|b|] == b;
    assert s == (a + s)[|a|..] == (b + t)[|b|..] == t;
  }

  lemma AmountsInjective(a: TenantLedger, b: TenantLedger)
    requires Representable([a]) && Representable([b]) && Amounts(a) == Amounts(b)
    ensures a.initial == b.initial && a.remaining == b.remaining && a.reserved == b.reserved && a.committed == b.committed
  {
    hide Amount;
    assert IsI64([a][0].initial) && IsI64([b][0].initial);
    Cut(Amount(a.initial) + Amount(a.remaining) + Amount(a.reserved), Amount(a.committed),
        Amount(b.initial) + Amount(b.remaining) + Amount(b.reserved), Amount(b.committed));
    Cut(Amount(a.initial) + Amount(a.remaining), Amount(a.reserved), Amount(b.initial) + Amount(b.remaining), Amount(b.reserved));
    Cut(Amount(a.initial), Amount(a.remaining), Amount(b.initial), Amount(b.remaining));
    AmountInjective(a.initial, b.initial);
    AmountInjective(a.remaining, b.remaining);
    AmountInjective(a.reserved, b.reserved);
    AmountInjective(a.committed, b.committed);
  }

  /** What the length field of a row shows: the length is cut to 32 bits. */
  function LengthField(utf8: Utf8, r: TenantLedger): nat {
    |utf8(r.tenant)| % 0x1_0000_0000
  }

  /** The id of `b` goes on where row `a` ends its id and amounts, and is too long for its field to show it. */
  predicate Swallows(utf8: Utf8, b: TenantLedger, a: TenantLedger) {
    && LengthField(utf8, a) == LengthField(utf8, b) && |utf8(a.tenant)| < |utf8(b.tenant)|
    && utf8(a.tenant) + Amounts(a) <= utf8(b.tenant)
  }

  /** Where two encodings that start with a row agree, the rows are the same or one swallows the other. */
  lemma RowFirst(utf8: Utf8, a: TenantLedger, s: bytes, b: TenantLedger, t: bytes)
    requires Injective(utf8) && Representable([a]) && Representable([b])
    requires RowBytes(utf8, a) + s == RowBytes(utf8, b) + t
    ensures (a == b && s == t) || Swallows(utf8, a, b) || Swallows(utf8, b, a)
  {
    hide Amounts, LittleEndian, Representable;
    var x, y := utf8(a.tenant), utf8(b.tenant);
    assert RowBytes(utf8, a) + s == LittleEndian(|x|, 4) + (x + (Amounts(a) + s));
    assert RowBytes(utf8, b) + t == LittleEndian(|y|, 4) + (y + (Amounts(b) + t));
    Cut(LittleEndian(|x|, 4), x + (Amounts(a) + s), LittleEndian(|y|, 4), y + (Amounts(b) + t));
    SameField(|x|, |y|);
    if |x| == |y| {
      Cut(x, Amounts(a) + s, y, Amounts(b) + t);
      Cut(Amounts(a), s, Amounts(b), t);
      AmountsInjective(a, b);
    } else if |x| < |y| {
      FieldGap(|x|, |y|);
      assert x + Amounts(a) + s == y + (Amounts(b) + t);
      StartsWith(x + Amounts(a), s, y, Amounts(b) + t);
    } else {
      FieldGap(|y|, |x|);
      assert y + Amounts(b) + t == x + (Amounts(a) + s);
      StartsWith(y + Amounts(b), t, x, Amounts(a) + s);
    }
  }

  lemma SameField(m: nat, n: nat)
    ensures LittleEndian(m, 4) == LittleEndian(n, 4) <==> m % 0x1_0000_0000 == n % 0x1_0000_0000
  {
    hide LittleEndian;
    Widths();
    LittleEndianTruncates(m, 4);
    LittleEndianTruncates(n, 4);
    if LittleEndian(m, 4) == LittleEndian(n, 4) {
      LittleEndianInjective(m % 0x1_0000_0000, n % 0x1_0000_0000, 4);
    }
  }

  /** Lengths with the same field are far apart. */
  lemma FieldGap(m: nat, n: nat)
    requires m < n && m % 0x1_0000_0000 == n % 0x1_0000_0000
    ensures m + 0x1_0000_0000 <= n
  {
  }

  lemma StartsWith<T>(a: seq<T>, s: seq<T>, b: seq<T>, t: seq<T>)
    requires a + s == b + t && |a| <= |b|
    ensures a <= b
  {
    assert a == (a + s)[..|a|] == (b + t)[..|a|] == b[..|a|];
  }

  /** A row that swallows another can be read as it. */
  lemma ReadsAs(utf8: Utf8, a: TenantLedger, b: TenantLedger, t: bytes) returns (s: bytes)
    requires Swallows(utf8, b, a)
    ensures RowBytes(utf8, b) + t == RowBytes(utf8, a) + s
  {
    hide Amounts, LittleEndian;
    var x, y := utf8(a.tenant), utf8(b.tenant);
    s := y[|x| + 32..] + Amounts(b) + t;
    SameField(|x|, |y|);
    assert y == x + Amounts(a) + y[|x| + 32..];
    assert RowBytes(utf8, b) + t == LittleEndian(|x|, 4) + (x + Amounts(a) + y[|x| + 32..]) + Amounts(b) + t;
  }

  ghost predicate Confusable(utf8: Utf8, a: TenantLedger, b: TenantLedger) {
    exists s, t :: RowBytes(utf8, a) + s == RowBytes(utf8, b) + t
  }

  /** Two rows can start the same encoding if and only if they are the same or one swallows the other. */
  lemma RowsConfusable(utf8: Utf8, a: TenantLedger, b: TenantLedger)
    requires Injective(utf8) && Representable([a]) && Representable([b])
    ensures Confusable(utf8, a, b) <==> a == b || Swallows(utf8, a, b) || Swallows(utf8, b, a)
  {
    hide RowBytes, Swallows, Representable;
    if Confusable(utf8, a, b) {
      var s, t :| RowBytes(utf8, a) + s == RowBytes(utf8, b) + t;
      RowFirst(utf8, a, s, b, t);
    }
    if a == b {
      assert RowBytes(utf8, a) + [] == RowBytes(utf8, b) + [];
    }
    if Swallows(utf8, b, a) {
      var s := ReadsAs(utf8, a, b, []);
      assert RowBytes(utf8, a) + s == RowBytes(utf8, b) + [];
    }
    if Swallows(utf8, a, b) {
      var t := ReadsAs(utf8, b, a, []);
      assert RowBytes(utf8, a) + [] == RowBytes(utf8, b) + t;
    }
  }

  /** No row of one ledger swallows a row of the other. */
  ghost predicate Separate(utf8: Utf8, a: seq<TenantLedger>, b: seq<TenantLedger>) {
    forall q, r :: q in a && r in b ==> !Swallows(utf8, q, r) && !Swallows(utf8, r, q)
  }

  /** Ids whose length fits its field swallow nothing. */
  lemma ShortIdsSeparate(utf8: Utf8, a: seq<TenantLedger>, b: seq<TenantLedger>)
    requires forall r :: r in a || r in b ==> |utf8(r.tenant)| < 0x1_0000_0000
    ensures Separate(utf8, a, b)
  {
    hide Amounts;
  }

  function RowsBytes(utf8: Utf8, rows: seq<TenantLedger>): bytes {
    if rows == [] then [] else RowBytes(utf8, rows[0]) + RowsBytes(utf8, rows[1..])
  }

  lemma {:induction false} RowsFirst(utf8: Utf8, a: seq<TenantLedger>, s: bytes, b: seq<TenantLedger>, t: bytes)
    requires Injective(utf8) && |a| == |b| && RowsBytes(utf8, a) + s == RowsBytes(utf8, b) + t
    requires Representable(a) && Representable(b) && Separate(utf8, a, b)
    ensures a == b && s == t
  {
    hide RowBytes, Swallows, Injective, IsI64;
    if a != [] {
      var x, y := RowsBytes(utf8, a[1..]), RowsBytes(utf8, b[1..]);
      assert RowsBytes(utf8, a) + s == RowBytes(utf8, a[0]) + (x + s);
      assert RowsBytes(utf8, b) + t == RowBytes(utf8, b[0]) + (y + t);
      assert a[0] in a && b[0] in b;
      RowFirst(utf8, a[0], x + s, b[0], y + t);
      assert a == [a[0]] + a[1..] && b == [b[0]] + b[1..];
      RowsFirst(utf8, a[1..], s, b[1..], t);
    } else {
      assert RowsBytes(utf8, a) + s == s && RowsBytes(utf8, b) + t == t;
    }
  }

  // ----- The whole ledger -----

  function Suffix(watermark: Option<nat>): bytes {
    if watermark.None? then [] else WATERMARK_TAG + LittleEndian(watermark.value, 8)
  }

  function Prefix(snap: BudgetSnapshot): bytes {
    LEDGER_TAG + LittleEndian(snap.version, 8) + LittleEndian(|snap.tenants|, 8) + LittleEndian(snap.active_reservations, 8)
  }

  /** What `ledger_digest` hashes. */
  function LedgerBytes(utf8: Utf8, snap: BudgetSnapshot): bytes {
    Prefix(snap) + RowsBytes(utf8, Sorted(snap.tenants, RowBefore)) + Suffix(snap.wal_high_watermark)
  }

  /** The fields of a snapshot fit the integers they are kept in. */
  ghost predicate Persistable(snap: BudgetSnapshot) {
    && snap.version <= U64_MAX && |snap.tenants| <= U64_MAX && snap.active_reservations <= U64_MAX
    && (snap.wal_high_watermark.Some? ==> snap.wal_high_watermark.value <= U64_MAX)
    && Representable(snap.tenants)
  }

  lemma PrefixInjective(a: BudgetSnapshot, b: BudgetSnapshot)
    requires a.version <= U64_MAX && |a.tenants| <= U64_MAX && a.active_reservations <= U64_MAX
    requires b.version <= U64_MAX && |b.tenants| <= U64_MAX && b.active_reservations <= U64_MAX
    requires Prefix(a) == Prefix(b)
    ensures a.version == b.version && |a.tenants| == |b.tenants| && a.active_reservations == b.active_reservations
  {
    hide LittleEndian;
    Widths();
    var le := (v: nat) => LittleEndian(v, 8);
    Cut(LEDGER_TAG + le(a.version) + le(|a.tenants|), le(a.active_reservations),
        LEDGER_TAG + le(b.version) + le(|b.tenants|), le(b.active_reservations));
    Cut(LEDGER_TAG + le(a.version), le(|a.tenants|), LEDGER_TAG + le(b.version), le(|b.tenants|));
    Cut(LEDGER_TAG, le(a.version), LEDGER_TAG, le(b.version));
    LittleEndianInjective(a.version, b.version, 8);
    LittleEndianInjective(|a.tenants|, |b.tenants|, 8);
    LittleEndianInjective(a.active_reservations, b.active_reservations, 8);
  }

  lemma SuffixInjective(a: Option<nat>, b: Option<nat>)
    requires (a.Some? ==> a.value <= U64_MAX) && (b.Some? ==> b.value <= U64_MAX) && Suffix(a) == Suffix(b)
    ensures a == b
  {
    hide LittleEndian;
    Widths();
    assert a.Some? ==> |Suffix(a)| >= 8;
    assert b.Some? ==> |Suffix(b)| >= 8;
    if a.Some? && b.Some? {
      Cut(WATERMARK_TAG, LittleEndian(a.value, 8), WATERMARK_TAG, LittleEndian(b.value, 8));
      LittleEndianInjective(a.value, b.value, 8);
    }
  }

  /** An encoding can be taken apart in one way only. */
  lemma TakeApart(utf8: Utf8, a: BudgetSnapshot, b: BudgetSnapshot)
    requires Injective(utf8) && Persistable(a) && Persistable(b) && Separate(utf8, a.tenants, b.tenants)
    requires LedgerBytes(utf8, a) == LedgerBytes(utf8, b)
    ensures a.version == b.version && a.active_reservations == b.active_reservations
    ensures a.wal_high_watermark == b.wal_high_watermark && Sorted(a.tenants, RowBefore) == Sorted(b.tenants, RowBefore)
  {
    hide Injective, Swallows, RowsBytes, Suffix, Prefix, Sorted, IsI64;
    var p, q := RowsBytes(utf8, Sorted(a.tenants, RowBefore)), RowsBytes(utf8, Sorted(b.tenants, RowBefore));
    var x, y := p + Suffix(a.wal_high_watermark), q + Suffix(b.wal_high_watermark);
    assert LedgerBytes(utf8, a) == Prefix(a) + x && LedgerBytes(utf8, b) == Prefix(b) + y;
    PrefixLength(a);
    PrefixLength(b);
    Cut(Prefix(a), x, Prefix(b), y);
    PrefixInjective(a, b);
    SortedElements(a.tenants);
    SortedElements(b.tenants);
    SortedRepresentable(a.tenants);
    SortedRepresentable(b.tenants);
    RowsFirst(utf8, Sorted(a.tenants, RowBefore), Suffix(a.wal_high_watermark), Sorted(b.tenants, RowBefore), Suffix(b.wal_high_watermark));
    SuffixInjective(a.wal_high_watermark, b.wal_high_watermark);
  }

  lemma SortedRepresentable(rows: seq<TenantLedger>)
    requires Representable(rows)
    ensures Representable(Sorted(rows, RowBefore))
  {
    hide Sorted, IsI64;
    SortedElements(rows);
    var out := Sorted(rows, RowBefore);
    forall i | 0 <= i < |out|
      ensures IsI64(out[i].initial) && IsI64(out[i].remaining) && IsI64(out[i].reserved) && IsI64(out[i].committed)
    {
      assert out[i] in rows;
    }
  }

  lemma PrefixLength(snap: BudgetSnapshot)
    ensures |Prefix(snap)| == 33
  {
    hide LittleEndian;
  }

  /** Everything a snapshot holds beside its rows. */
  predicate SameHeader(a: BudgetSnapshot, b: BudgetSnapshot) {
    && a.version == b.version && a.active_reservations == b.active_reservations
    && a.wal_high_watermark == b.wal_high_watermark
  }

  /**
   * Two snapshots have the same encoding exactly when they agree apart from their rows and list the
   * same rows of each tenant in the same order.
   */
  lemma EncodingInjective(utf8: Utf8, a: BudgetSnapshot, b: BudgetSnapshot)
    requires Injective(utf8) && Persistable(a) && Persistable(b) && Separate(utf8, a.tenants, b.tenants)
    ensures LedgerBytes(utf8, a) == LedgerBytes(utf8, b) <==>
      SameHeader(a, b) && SameTies(a.tenants, b.tenants, RowBefore)
    ensures LedgerBytes(utf8, a) == LedgerBytes(utf8, b) ==> multiset(a.tenants) == multiset(b.tenants)
  {
    hide Injective, Separate, Persistable, RowsBytes, Suffix, Sorted, LittleEndian, SameTies;
    RowsByTenant();
    SortedSame(a.tenants, b.tenants, RowBefore);
    if LedgerBytes(utf8, a) == LedgerBytes(utf8, b) {
      TakeApart(utf8, a, b);
    }
    if Sorted(a.tenants, RowBefore) == Sorted(b.tenants, RowBefore) {
      assert multiset(a.tenants) == multiset(b.tenants);
      assert |multiset(a.tenants)| == |multiset(b.tenants)|;
    }
  }

  /** When no tenant is listed twice, the order of the rows is all that the encoding forgets. */
  lemma EncodingForgetsOrder(utf8: Utf8, a: BudgetSnapshot, b: BudgetSnapshot)
    requires Injective(utf8) && Persistable(a) && Persistable(b) && Separate(utf8, a.tenants, b.tenants)
    requires DistinctTenants(a.tenants)
    ensures LedgerBytes(utf8, a) == LedgerBytes(utf8, b) <==> SameHeader(a, b) && multiset(a.tenants) == multiset(b.tenants)
  {
    hide Injective, Separate, Persistable, LedgerBytes, Sorted, SameTies, Lex;
    EncodingInjective(utf8, a, b);
    if multiset(a.tenants) == multiset(b.tenants) {
      RowsByTenant();
      RowsComparable(a.tenants);
      SortedOrdered(a.tenants, RowBefore);
      SortedOrdered(b.tenants, RowBefore);
      SortedStrictly(a.tenants, Sorted(a.tenants, RowBefore), RowBefore);
      SortedStrictly(a.tenants, Sorted(b.tenants, RowBefore), RowBefore);
      SortedElements(a.tenants);
      SortedElements(b.tenants);
      forall r
        ensures r in Sorted(a.tenants, RowBefore) <==> r in Sorted(b.tenants, RowBefore)
      {
        assert r in multiset(a.tenants) <==> r in multiset(b.tenants);
      }
      StrictUnique(Sorted(a.tenants, RowBefore), Sorted(b.tenants, RowBefore), RowBefore);
      SortedSame(a.tenants, b.tenants, RowBefore);
    }
  }

  lemma SortedElements(rows: seq<TenantLedger>)
    ensures forall r :: r in Sorted(rows, RowBefore) <==> r in rows
  {
    forall r
      ensures r in Sorted(rows, RowBefore) <==> r in rows
    {
      assert r in multiset(Sorted(rows, RowBefore)) <==> r in multiset(rows);
    }
  }

  method AppendRows(utf8: Utf8, start: bytes, rows: seq<TenantLedger>) returns (out: bytes)
    ensures out == start + RowsBytes(utf8, rows)
  {
    hide RowBytes;
    out := start;
    for i := 0 to |rows|
      invariant out + RowsBytes(utf8, rows[i..]) == start + RowsBytes(utf8, rows)
    {
      assert rows[i..][1..] == rows[i + 1..];
      assert out + RowsBytes(utf8, rows[i..]) == out + RowBytes(utf8, rows[i]) + RowsBytes(utf8, rows[i + 1..]);
      out := out + RowBytes(utf8, rows[i]);
    }
    assert rows[|rows|..] == [];
  }

  /** `ledger_digest` up to the final hash: sort the rows, then append everything in turn. */
  method EncodeLedger(utf8: Utf8, snap: BudgetSnapshot) returns (out: bytes)
    ensures out == LedgerBytes(utf8, snap)
  {
    hide RowsBytes, LittleEndian, Prefix, Sorted;
    RowsByTenant();
    var rows := SortBy(snap.tenants, RowBefore);
    out := AppendRows(utf8, Prefix(snap), rows);
    if snap.wal_high_watermark.Some? {
      out := out + (WATERMARK_TAG + LittleEndian(snap.wal_high_watermark.value, 8));
    }
  }

  // ----- Ids too long for their length field -----

  function Zeros(n: nat): (b: bytes)
    ensures |b| == n && forall i :: 0 <= i < n ==> b[i] == 0
  {
    seq(n, _ => 0)
  }

  /** A tenant of `n` blocks of 2^32 zero characters, without any money. */
  function LongTenant(n: nat): TenantLedger {
    TenantLedger(seq(n * 0x1_0000_0000, _ => '\0'), 0, 0, 0, 0)
  }

  /** As in UTF-8, a zero character is one zero byte. */
  ghost predicate ZeroIsZero(utf8: Utf8) {
    forall n: nat {:trigger LongTenant(n)} :: utf8(LongTenant(n).tenant) == Zeros(n * 0x1_0000_0000)
  }

  lemma ZeroAmounts(r: TenantLedger)
    requires r.initial == 0 && r.remaining == 0 && r.reserved == 0 && r.committed == 0
    ensures Amounts(r) == Zeros(32)
  {
    ZeroEndian(8);
  }

  lemma {:induction false} ZeroEndian(n: nat)
    ensures LittleEndian(0, n) == Zeros(n)
  {
    if n > 0 {
      ZeroEndian(n - 1);
    }
  }

  /** Such a row is all zeros. */
  lemma LongTenantBytes(utf8: Utf8, n: nat)
    requires ZeroIsZero(utf8)
    ensures RowBytes(utf8, LongTenant(n)) == Zeros(36 + n * 0x1_0000_0000)
  {
    hide LittleEndian, Amounts;
    var r, size := LongTenant(n), n * 0x1_0000_0000;
    ZeroAmounts(r);
    ZeroEndian(4);
    SameField(size, 0);
    assert |utf8(r.tenant)| == size;
  }

  /** A ledger of two tenants. */
  function TwoRows(a: TenantLedger, b: TenantLedger): BudgetSnapshot {
    BudgetSnapshot(RECOVERY_TAG + 1, [a, b], 0, None)
  }

  lemma TwoZeroRows(utf8: Utf8, m: nat, n: nat)
    requires ZeroIsZero(utf8)
    ensures LedgerBytes(utf8, TwoRows(LongTenant(m), LongTenant(n)))
         == Prefix(TwoRows(LongTenant(0), LongTenant(0))) + Zeros(72 + (m + n) * 0x1_0000_0000)
  {
    hide RowBytes, LongTenant, Prefix, Sorted, RowBefore;
    var a, b := LongTenant(m), LongTenant(n);
    var out := Sorted([a, b], RowBefore);
    assert out[0] in multiset(out) && out[1] in multiset(out);
    assert multiset(out) == multiset{a, b} && multiset(out) == multiset{out[0], out[1]} by {
      assert out == [out[0], out[1]];
    }
    assert out == [a, b] || out == [b, a] by {
      PairOf(out, a, b);
    }
    LongTenantBytes(utf8, m);
    LongTenantBytes(utf8, n);
    RowsOfTwo(utf8, out[0], out[1]);
    assert out == [out[0], out[1]];
    SamePrefix(TwoRows(a, b), TwoRows(LongTenant(0), LongTenant(0)));
  }

  lemma PairOf<T>(s: seq<T>, a: T, b: T)
    requires |s| == 2 && multiset(s) == multiset{a, b}
    ensures s == [a, b] || s == [b, a]
  {
    assert s == [s[0], s[1]];
    assert s[0] in multiset{a, b} && s[1] in multiset{a, b};
    assert multiset(s) == multiset{s[0], s[1]};
    if s[0] == a {
      assert multiset(s) - multiset{a} == multiset{s[1]} && multiset{a, b} - multiset{a} == multiset{b};
      assert s[1] in multiset{b};
    } else {
      assert multiset(s) - multiset{b} == multiset{s[1]} && multiset{a, b} - multiset{b} == multiset{a};
      assert s[1] in multiset{a};
    }
  }

  lemma RowsOfTwo(utf8: Utf8, a: TenantLedger, b: TenantLedger)
    ensures RowsBytes(utf8, [a, b]) == RowBytes(utf8, a) + RowBytes(utf8, b)
  {
    hide RowBytes;
    assert [a, b][1..] == [b] && [b][1..] == [];
    assert RowsBytes(utf8, [b]) == RowBytes(utf8, b) + RowsBytes(utf8, []) == RowBytes(utf8, b);
    assert RowsBytes(utf8, [a, b]) == RowBytes(utf8, a) + RowsBytes(utf8, [b]);
  }

  lemma SamePrefix(a: BudgetSnapshot, b: BudgetSnapshot)
    requires a.version == b.version && |a.tenants| == |b.tenants| && a.active_reservations == b.active_reservations
    ensures Prefix(a) == Prefix(b)
  {
    hide LittleEndian;
  }

  /**
   * Two different ledgers of distinct tenants with one encoding: the ids are so long that no length
   * field shows them, and only their lengths together count.
   */
  lemma LongIdsCollide(utf8: Utf8)
    requires ZeroIsZero(utf8)
    ensures var a, b := TwoRows(LongTenant(0), LongTenant(3)), TwoRows(LongTenant(1), LongTenant(2));
      && LedgerBytes(utf8, a) == LedgerBytes(utf8, b) && multiset(a.tenants) != multiset(b.tenants)
      && DistinctTenants(a.tenants) && DistinctTenants(b.tenants) && Persistable(a) && Persistable(b)
      && Swallows(utf8, LongTenant(1), LongTenant(0))
  {
    hide LedgerBytes, LongTenant, Swallows, Persistable;
    TwoZeroRows(utf8, 0, 3);
    TwoZeroRows(utf8, 1, 2);
    LongTenantsDiffer(0, 1);
    LongTenantsDiffer(0, 2);
    LongTenantsDiffer(0, 3);
    LongTenantsDiffer(1, 2);
    var a, b := TwoRows(LongTenant(0), LongTenant(3)), TwoRows(LongTenant(1), LongTenant(2));
    assert LongTenant(0) in multiset(a.tenants) && LongTenant(0) !in multiset(b.tenants);
    LongTenantPersists(0, 3);
    LongTenantPersists(1, 2);
    LongTenantSwallows(utf8);
  }

  lemma LongTenantPersists(m: nat, n: nat)
    ensures Persistable(TwoRows(LongTenant(m), LongTenant(n)))
  {
  }

  lemma LongTenantSwallows(utf8: Utf8)
    requires ZeroIsZero(utf8)
    ensures Swallows(utf8, LongTenant(1), LongTenant(0))
  {
    hide Amounts;
    ZeroAmounts(LongTenant(0));
    assert utf8(LongTenant(0).tenant) == Zeros(0) && utf8(LongTenant(1).tenant) == Zeros(0x1_0000_0000);
    assert Zeros(0) + Zeros(32) == Zeros(0x1_0000_0000)[..32];
  }

  lemma LongTenantsDiffer(m: nat, n: nat)
    requires m < n
    ensures LongTenant(m).tenant != LongTenant(n).tenant
  {
    assert |LongTenant(m).tenant| < |LongTenant(n).tenant|;
  }
}
