/** The canonical bytes behind the cache keys (`canonical_key_components` in
    `server/cache_sqlite.py`, hashed for Tier 1 there and for the Tier-2 scope by
    `_tier2_scope_fingerprint` in `server/cache.py`).

    The canonical query and the filters come as bytes: equal bytes mean equal canonical forms. */
module KeyEncoding {
  import opened Prelude

  type Byte = x: int | 0 <= x < 256

  type Bytes = seq<Byte>

  // ------------------------------------------------------------------
  // Length prefixes
  // ------------------------------------------------------------------

  function Power256(width: nat): nat {
    if width == 0 then 1 else 256 * Power256(width - 1)
  }

  /** `struct.pack` in big-endian order. */
  function BigEndian(n: nat, width: nat): (r: Bytes)
    ensures |r| == width
  {
    if width == 0 then [] else BigEndian(n / 256, width - 1) + [n % 256]
  }

  /** The number whose digits in this base these are, the first being the highest. */
  ghost function Value(digits: seq<nat>, base: nat): nat {
    if digits == [] then 0 else base * Value(digits[..|digits| - 1], base) + digits[|digits| - 1]
  }

  /** A number that fits is read back. */
  lemma {:induction false} BigEndianReadsBack(n: nat, width: nat)
    requires n < Power256(width)
    ensures Value(BigEndian(n, width), 256) == n
  {
    if width > 0 {
      var high := BigEndian(n / 256, width - 1);
      assert (high + [n % 256])[..width - 1] == high;
      BigEndianReadsBack(n / 256, width - 1);
    }
  }

  const PREFIX: nat := 8

  function Prefixed(part: Bytes): Bytes {
    BigEndian(|part|, PREFIX) + part
  }

  predicate Packable(part: Bytes) {
    |part| < Power256(PREFIX)
  }

  function Encoded(parts: seq<Bytes>): Bytes {
    if parts == [] then [] else Prefixed(parts[0]) + Encoded(parts[1..])
  }

  /** What the bytes say: the length of the first part in eight bytes, the part, and then the others. */
  lemma EncodedReads(parts: seq<Bytes>)
    requires parts != [] && Packable(parts[0])
    ensures var out, n := Encoded(parts), |parts[0]|;
            && |out| >= PREFIX + n && Value(out[..PREFIX], 256) == n
            && out[PREFIX..PREFIX + n] == parts[0] && out[PREFIX + n..] == Encoded(parts[1..])
  {
    BigEndianReadsBack(|parts[0]|, PREFIX);
    assert Encoded(parts)[..PREFIX] == BigEndian(|parts[0]|, PREFIX);
  }

  /** No prefixed part is a proper prefix of another. */
  lemma PrefixFree(p: Bytes, q: Bytes, x: Bytes, y: Bytes)
    requires Packable(p) && Packable(q) && Prefixed(p) + x == Prefixed(q) + y
    ensures p == q && x == y
  {
    var left, right := Prefixed(p) + x, Prefixed(q) + y;
    hide BigEndian, Power256;
    assert left[..PREFIX] == BigEndian(|p|, PREFIX) && right[..PREFIX] == BigEndian(|q|, PREFIX);
    BigEndianReadsBack(|p|, PREFIX);
    BigEndianReadsBack(|q|, PREFIX);
    assert left[PREFIX..PREFIX + |p|] == p && right[PREFIX..PREFIX + |q|] == q;
    assert left[PREFIX + |p|..] == x && right[PREFIX + |q|..] == y;
  }

  /** The encoding determines the parts, whatever bytes they hold. */
  lemma {:induction false} EncodedInjective(a: seq<Bytes>, b: seq<Bytes>)
    requires (forall p :: p in a ==> Packable(p)) && (forall p :: p in b ==> Packable(p))
    requires Encoded(a) == Encoded(b)
    ensures a == b
  {
    assert (a != [] ==> |Encoded(a)| >= PREFIX) && (b != [] ==> |Encoded(b)| >= PREFIX);
    if a != [] && b != [] {
      PrefixFree(a[0], b[0], Encoded(a[1..]), Encoded(b[1..]));
      EncodedInjective(a[1..], b[1..]);
      assert a == [a[0]] + a[1..] && b == [b[0]] + b[1..];
    }
  }

  lemma {:induction false} EncodedSnoc(parts: seq<Bytes>, last: Bytes)
    ensures Encoded(parts + [last]) == Encoded(parts) + Prefixed(last)
  {
    if parts == [] {
      assert Encoded([last]) == Prefixed(last) + Encoded([]);
      assert [] + [last] == [last] && Encoded([]) == [];
      assert Prefixed(last) + [] == Prefixed(last);
    } else {
      assert (parts + [last])[1..] == parts[1..] + [last];
      EncodedSnoc(parts[1..], last);
    }
  }

  // ------------------------------------------------------------------
  // Numbers
  // ------------------------------------------------------------------

  const ZERO: Byte := 48
  const MINUS: Byte := 45

  function Digits(n: nat): (r: Bytes)
    ensures r != [] && forall i :: 0 <= i < |r| ==> ZERO <= r[i]
  {
    if n < 10 then [ZERO + n] else Digits(n / 10) + [ZERO + n % 10]
  }

  /** `str` of an integer. */
  function Decimal(n: int): Bytes {
    if n < 0 then [MINUS] + Digits(-n) else Digits(n)
  }

  ghost function FromAscii(digits: Bytes): seq<nat>
    requires forall i :: 0 <= i < |digits| ==> ZERO <= digits[i]
  {
    seq(|digits|, i requires 0 <= i < |digits| => digits[i] - ZERO)
  }

  /** The digits are decimal, without a leading zero, and the number is read back from them. */
  lemma {:induction false} DigitsReadBack(n: nat)
    ensures Value(FromAscii(Digits(n)), 10) == n
    ensures forall i :: 0 <= i < |Digits(n)| ==> Digits(n)[i] <= ZERO + 9
    ensures n > 0 ==> Digits(n)[0] != ZERO
  {
    if n >= 10 {
      DigitsReadBack(n / 10);
      var all := FromAscii(Digits(n));
      assert all[..|all| - 1] == FromAscii(Digits(n / 10)) && all[|all| - 1] == n % 10;
    } else {
      assert FromAscii(Digits(n)) == [n] && [n][..0] == [];
    }
  }

  lemma DigitsInjective(m: nat, n: nat)
    requires Digits(m) == Digits(n)
    ensures m == n
  {
    DigitsReadBack(m);
    DigitsReadBack(n);
  }

  lemma DecimalInjective(m: int, n: int)
    requires Decimal(m) == Decimal(n)
    ensures m == n
  {
    assert (m < 0 <==> Decimal(m)[0] == MINUS) && (n < 0 <==> Decimal(n)[0] == MINUS);
    if m < 0 && n < 0 {
      assert Decimal(m)[1..] == Digits(-m) && Decimal(n)[1..] == Digits(-n);
      DigitsInjective(-m, -n);
    } else if m >= 0 && n >= 0 {
      DigitsInjective(m, n);
    }
  }

  // ------------------------------------------------------------------
  // The key
  // ------------------------------------------------------------------

  /** The bytes of "None". */
  const NONE: Bytes := [78, 111, 110, 101]

  function Token(o: Option<Bytes>): Bytes {
    match o
    case None => NONE
    case Some(b) => b
  }

  /** `filters` is None or the sorted JSON of a dictionary. */
  datatype Request = Request(query: Bytes, filters: Option<Bytes>, k: int, corpusVersion: int,
                             level: Option<Bytes>, embedder: Option<Bytes>)

  /** The sorted JSON of the empty dictionary. */
  const EMPTY_FILTERS: Bytes := [123, 125]

  function Filters(r: Request): Bytes {
    match r.filters
    case None => EMPTY_FILTERS
    case Some(json) => json
  }

  function Parts(r: Request): seq<Bytes> {
    [r.query, Filters(r), Decimal(r.k), Decimal(r.corpusVersion), Token(r.level), Token(r.embedder)]
  }

  /** `canonical_key_components`. */
  method CanonicalKey(r: Request) returns (out: Bytes)
    ensures out == Encoded(Parts(r))
    ensures out == Encoded([
      r.query, if r.filters.Some? then r.filters.value else [123, 125], Decimal(r.k), Decimal(r.corpusVersion),
      if r.level.Some? then r.level.value else [78, 111, 110, 101],
      if r.embedder.Some? then r.embedder.value else [78, 111, 110, 101]])
  {
    var parts := Parts(r);
    out := [];
    for i := 0 to |parts|
      invariant out == Encoded(parts[..i])
    {
      EncodedSnoc(parts[..i], parts[i]);
      assert parts[..i + 1] == parts[..i] + [parts[i]];
      out := out + (BigEndian(|parts[i]|, PREFIX) + parts[i]);
    }
    assert parts[..|parts|] == parts;
  }

  /** The same value, or an omitted one against what is encoded in its place. */
  predicate SameUpTo(a: Option<Bytes>, b: Option<Bytes>, omitted: Bytes) {
    || a == b
    || (a.None? && b == Some(omitted))
    || (a == Some(omitted) && b.None?)
  }

  ghost predicate PackableRequest(r: Request) {
    forall p :: p in Parts(r) ==> Packable(p)
  }

  /** Two requests share a key if and only if they agree in every component, no filters counting as
      empty filters, the bytes of "{}", and a missing level or embedder as the string "None". */
  lemma SameKeyIff(a: Request, b: Request)
    requires PackableRequest(a) && PackableRequest(b)
    ensures Encoded(Parts(a)) == Encoded(Parts(b)) <==>
      && a.query == b.query && a.k == b.k && a.corpusVersion == b.corpusVersion
      && SameUpTo(a.filters, b.filters, [123, 125])
      && SameUpTo(a.level, b.level, [78, 111, 110, 101]) && SameUpTo(a.embedder, b.embedder, [78, 111, 110, 101])
  {
    hide Encoded, Decimal;
    if Encoded(Parts(a)) == Encoded(Parts(b)) {
      EncodedInjective(Parts(a), Parts(b));
      var p, q := Parts(a), Parts(b);
      assert p[0] == q[0] && p[1] == q[1] && p[2] == q[2] && p[3] == q[3] && p[4] == q[4] && p[5] == q[5];
      DecimalInjective(a.k, b.k);
      DecimalInjective(a.corpusVersion, b.corpusVersion);
    }
  }

  /** The Tier-2 scope is the key of a request without query and with k at zero. */
  function Scope(r: Request): Bytes {
    Encoded(Parts(r.(query := [], k := 0)))
  }

  /** So a scope never answers for another corpus, another filter or another named level or embedder. */
  lemma ScopeSeparates(a: Request, b: Request)
    requires PackableRequest(a.(query := [], k := 0)) && PackableRequest(b.(query := [], k := 0))
    ensures Scope(a) == Scope(b) <==>
      && a.corpusVersion == b.corpusVersion && SameUpTo(a.filters, b.filters, [123, 125])
      && SameUpTo(a.level, b.level, [78, 111, 110, 101]) && SameUpTo(a.embedder, b.embedder, [78, 111, 110, 101])
  {
    SameKeyIff(a.(query := [], k := 0), b.(query := [], k := 0));
  }
}
