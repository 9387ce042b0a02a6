/**
The length-prefixed encodings behind access-scope fingerprints, command fingerprints and scoped node ids.

Text is its UTF-8 bytes. The character-level part of a value's validity (UTF-8, no surrounding blanks, no
control characters) is an arbitrary predicate; emptiness and the size limits are explicit.
*/
module Encoding {
  import opened Common
  import Lexicographic

  type Byte = b: int | 0 <= b < 256

  type Bytes = seq<Byte>

  const MAX_VALUES := 128
  const MAX_VALUE_LENGTH := 256

  // ---------------------------------------------------------------- length prefixes

  /** The `width` low-order bytes of a number, most significant first; a larger number wraps around. */
  function BigEndian(n: nat, width: nat): (b: Bytes)
    ensures |b| == width
  {
    if width == 0 then [] else BigEndian(n / 256, width - 1) + [n % 256]
  }

  function FromBigEndian(b: Bytes): nat {
    if b == [] then 0 else FromBigEndian(b[..|b| - 1]) * 256 + b[|b| - 1]
  }

  function Pow256(n: nat): nat {
    if n == 0 then 1 else 256 * Pow256(n - 1)
  }

  lemma {:induction false} BigEndianRoundTrip(n: nat, width: nat)
    requires n < Pow256(width)
    ensures FromBigEndian(BigEndian(n, width)) == n
  {
    if width > 0 {
      var b := BigEndian(n, width);
      assert b[..|b| - 1] == BigEndian(n / 256, width - 1);
      BigEndianRoundTrip(n / 256, width - 1);
    }
  }

  function Prefixed(v: Bytes, width: nat): Bytes {
    BigEndian(|v|, width) + v
  }

  /** A prefixed value can be read off the front of any bytes in only one way. */
  lemma PrefixedIsReadBack(v: Bytes, w: Bytes, x: Bytes, y: Bytes, width: nat)
    requires |v| < Pow256(width) && |w| < Pow256(width)
    requires Prefixed(v, width) + x == Prefixed(w, width) + y
    ensures v == w && x == y
  {
    var a, b := Prefixed(v, width) + x, Prefixed(w, width) + y;
    assert a[..width] == BigEndian(|v|, width) && b[..width] == BigEndian(|w|, width);
    BigEndianRoundTrip(|v|, width);
    BigEndianRoundTrip(|w|, width);
    assert a[width..width + |v|] == v && b[width..width + |w|] == w;
    assert a[width + |v|..] == x && b[width + |w|..] == y;
  }

  /** One value after the other, each behind its length. */
  function PrefixedAll(values: seq<Bytes>, width: nat): Bytes {
    if values == [] then [] else Prefixed(values[0], width) + PrefixedAll(values[1..], width)
  }

  ghost predicate Fit(values: seq<Bytes>, width: nat) {
    forall v :: v in values ==> |v| < Pow256(width)
  }

  /** The same number of values in front of two rests: the values and the rests agree. */
  lemma {:induction false} CountedIsReadBack(a: seq<Bytes>, b: seq<Bytes>, x: Bytes, y: Bytes, width: nat)
    requires |a| == |b| && Fit(a, width) && Fit(b, width)
    requires PrefixedAll(a, width) + x == PrefixedAll(b, width) + y
    ensures a == b && x == y
  {
    if a == [] {
      assert PrefixedAll(a, width) + x == x && PrefixedAll(b, width) + y == y;
    } else {
      var p, q := PrefixedAll(a[1..], width), PrefixedAll(b[1..], width);
      assert Prefixed(a[0], width) + p + x == Prefixed(a[0], width) + (p + x);
      assert Prefixed(b[0], width) + q + y == Prefixed(b[0], width) + (q + y);
      PrefixedIsReadBack(a[0], b[0], p + x, q + y, width);
      CountedIsReadBack(a[1..], b[1..], x, y, width);
      assert a == [a[0]] + a[1..] && b == [b[0]] + b[1..];
    }
  }

  /** Without a count the encoding still determines the list: every value takes at least its prefix. */
  lemma {:induction false} ComponentsAreReadBack(a: seq<Bytes>, b: seq<Bytes>, width: nat)
    requires width > 0 && Fit(a, width) && Fit(b, width)
    requires PrefixedAll(a, width) == PrefixedAll(b, width)
    ensures a == b
  {
    if a != [] && b != [] {
      PrefixedIsReadBack(a[0], b[0], PrefixedAll(a[1..], width), PrefixedAll(b[1..], width), width);
      ComponentsAreReadBack(a[1..], b[1..], width);
      assert a == [a[0]] + a[1..] && b == [b[0]] + b[1..];
    }
  }

  // ---------------------------------------------------------------- normalized value lists

  function Value(b: Byte): int {
    b
  }

  /** Byte-wise lexicographic order. */
  predicate Below(a: Bytes, b: Bytes) {
    Lexicographic.Less(Value, a, b)
  }

  lemma BelowTransitive(a: Bytes, b: Bytes, c: Bytes)
    requires Below(a, b) && Below(b, c)
    ensures Below(a, c)
  {
    Lexicographic.Transitive(Value, a, b, c);
  }

  lemma BelowTotal(a: Bytes, b: Bytes)
    ensures Below(a, b) || a == b || Below(b, a)
    ensures !(Below(a, b) && (a == b || Below(b, a)))
  {
    Lexicographic.Trichotomy(Value, a, b);
  }

  ghost predicate Ascending(s: seq<Bytes>) {
    forall i, j :: 0 <= i < j < |s| ==> Below(s[i], s[j])
  }

  function Insert(v: Bytes, s: seq<Bytes>): seq<Bytes> {
    if s == [] then [v]
    else if v == s[0] then s
    else if Below(v, s[0]) then [v] + s
    else [s[0]] + Insert(v, s[1..])
  }

  /** The distinct values in ascending order. */
  function Normal(values: seq<Bytes>): seq<Bytes> {
    if values == [] then [] else Insert(values[|values| - 1], Normal(values[..|values| - 1]))
  }

  lemma {:induction false} InsertMembers(v: Bytes, s: seq<Bytes>)
    ensures Elements(Insert(v, s)) == Elements(s) + {v}
    ensures |Insert(v, s)| <= |s| + 1
  {
    if s != [] {
      InsertMembers(v, s[1..]);
      assert s == [s[0]] + s[1..];
      assert Elements(s) == {s[0]} + Elements(s[1..]);
      assert Elements([s[0]] + Insert(v, s[1..])) == {s[0]} + Elements(Insert(v, s[1..]));
    }
  }

  lemma {:induction false} InsertAscends(v: Bytes, s: seq<Bytes>)
    requires Ascending(s)
    ensures Ascending(Insert(v, s))
  {
    if s != [] && v != s[0] {
      var rest := s[1..];
      BelowTotal(v, s[0]);
      if Below(v, s[0]) {
        forall i | 0 <= i < |s| ensures Below(v, s[i]) { if i > 0 { BelowTransitive(v, s[0], s[i]); } }
      } else {
        InsertAscends(v, rest);
        InsertMembers(v, rest);
        var tail := Insert(v, rest);
        forall i | 0 <= i < |tail| ensures Below(s[0], tail[i]) {
          assert tail[i] in Elements(tail);
          if tail[i] != v { var j :| 0 <= j < |rest| && rest[j] == tail[i]; assert rest[j] == s[j + 1]; }
        }
      }
    }
  }

  lemma {:induction false} NormalAscends(values: seq<Bytes>)
    ensures Ascending(Normal(values)) && Elements(Normal(values)) == Elements(values) && |Normal(values)| <= |values|
  {
    if values != [] {
      var front, last := values[..|values| - 1], values[|values| - 1];
      NormalAscends(front);
      InsertAscends(last, Normal(front));
      InsertMembers(last, Normal(front));
      assert values == front + [last];
    }
  }

  /** An ascending list is determined by its elements. */
  lemma {:induction false} AscendingIsUnique(a: seq<Bytes>, b: seq<Bytes>)
    requires Ascending(a) && Ascending(b) && Elements(a) == Elements(b)
    ensures a == b
  {
    if a == [] {
      SomeElement(b);
    } else {
      assert a[0] in Elements(b);
      assert b != [] && b[0] in Elements(a);
      BelowTotal(a[0], b[0]);
      assert a[0] == b[0];
      var x, y := a[1..], b[1..];
      assert a == [a[0]] + x && b == [b[0]] + y;
      forall v | v in Elements(x) ensures v in Elements(y) { TailMember(a, b, v); }
      forall v | v in Elements(y) ensures v in Elements(x) { TailMember(b, a, v); }
      AscendingIsUnique(x, y);
    }
  }

  lemma SomeElement(s: seq<Bytes>)
    ensures s == [] || Elements(s) != {}
  {
    if s != [] { assert s[0] in Elements(s); }
  }

  lemma TailMember(a: seq<Bytes>, b: seq<Bytes>, v: Bytes)
    requires Ascending(a) && a != [] && b != [] && a[0] == b[0] && Elements(a) == Elements(b) && v in a[1..]
    ensures v in b[1..]
  {
    var i :| 1 <= i < |a| && a[i] == v;
    assert Below(a[0], a[i]);
    BelowTotal(a[0], v);
    assert v in Elements(a);
    var j :| 0 <= j < |b| && b[j] == v;
    assert b[1..][j - 1] == v;
  }

  predicate ValidValue(text: Bytes -> bool, v: Bytes) {
    v != [] && text(v) && |v| <= MAX_VALUE_LENGTH
  }

  predicate ValidValues(text: Bytes -> bool, values: seq<Bytes>) {
    0 < |values| <= MAX_VALUES && forall v :: v in values ==> ValidValue(text, v)
  }

  /** Validates every value, then lists the distinct ones in order; false refuses the whole list. */
  method Normalize(text: Bytes -> bool, values: seq<Bytes>) returns (out: seq<Bytes>, ok: bool)
    ensures ok <==> ValidValues(text, values)
    ensures ok <==> 0 < |values| <= 128 && forall v :: v in values ==> 0 < |v| <= 256 && text(v)
    ensures ok ==> out == Normal(values) && Ascending(out) && Elements(out) == Elements(values)
  {
    out := [];
    if |values| == 0 || |values| > MAX_VALUES { return out, false; }
    for i := 0 to |values|
      invariant forall j :: 0 <= j < i ==> ValidValue(text, values[j])
      invariant out == Normal(values[..i])
    {
      if !ValidValue(text, values[i]) { return [], false; }
      assert values[..i + 1][..i] == values[..i];
      out := Insert(values[i], out);
    }
    assert values[..|values|] == values;
    NormalAscends(values);
    ok := true;
  }

  // ---------------------------------------------------------------- the access scope

  datatype AccessScope = AccessScope(tenantId: Bytes, userId: Bytes, allowedRepos: seq<Bytes>, aclGroups: seq<Bytes>)

  predicate ValidScope(text: Bytes -> bool, s: AccessScope) {
    ValidValue(text, s.tenantId) && ValidValues(text, s.allowedRepos) && ValidValues(text, s.aclGroups)
  }

  function ListBytes(values: seq<Bytes>): Bytes {
    BigEndian(|values|, 4) + PrefixedAll(values, 4)
  }

  function ScopeBytes(version: Bytes, s: AccessScope): Bytes {
    version + Prefixed(s.tenantId, 4) + ListBytes(Normal(s.allowedRepos)) + ListBytes(Normal(s.aclGroups))
  }

  /** None stands for the empty fingerprint of a scope that does not validate. */
  method Fingerprint(text: Bytes -> bool, digest: Bytes -> string, version: Bytes, s: AccessScope)
    returns (f: Option<string>)
    ensures f == if ValidScope(text, s) then Some(digest(ScopeBytes(version, s))) else None
    ensures f.Some? <==>
              && 0 < |s.tenantId| <= 256 && text(s.tenantId)
              && 0 < |s.allowedRepos| <= 128 && (forall v :: v in s.allowedRepos ==> 0 < |v| <= 256 && text(v))
              && 0 < |s.aclGroups| <= 128 && forall v :: v in s.aclGroups ==> 0 < |v| <= 256 && text(v)
  {
    if !ValidValue(text, s.tenantId) { return None; }
    var repos, reposOk := Normalize(text, s.allowedRepos);
    if !reposOk { return None; }
    var groups, groupsOk := Normalize(text, s.aclGroups);
    if !groupsOk { return None; }
    var buffer := version + Prefixed(s.tenantId, 4) + ListBytes(repos) + ListBytes(groups);
    f := Some(digest(buffer));
  }

  lemma FourBytes()
    ensures Pow256(4) == 0x1_0000_0000
  {
    assert Pow256(2) == 65536;
  }

  lemma ListIsReadBack(a: seq<Bytes>, b: seq<Bytes>, x: Bytes, y: Bytes)
    requires Fit(a, 4) && Fit(b, 4) && |a| < Pow256(4) && |b| < Pow256(4)
    requires ListBytes(a) + x == ListBytes(b) + y
    ensures a == b && x == y
  {
    hide BigEndian, FromBigEndian, PrefixedAll;
    var s, t := ListBytes(a) + x, ListBytes(b) + y;
    assert s[..4] == BigEndian(|a|, 4) && t[..4] == BigEndian(|b|, 4);
    BigEndianRoundTrip(|a|, 4);
    BigEndianRoundTrip(|b|, 4);
    assert s[4..] == PrefixedAll(a, 4) + x && t[4..] == PrefixedAll(b, 4) + y;
    CountedIsReadBack(a, b, x, y, 4);
  }

  lemma NormalFits(text: Bytes -> bool, values: seq<Bytes>)
    requires ValidValues(text, values)
    ensures Fit(Normal(values), 4) && |Normal(values)| < Pow256(4)
  {
    NormalAscends(values);
    FourBytes();
    forall v | v in Normal(values) ensures |v| < Pow256(4) { assert v in Elements(Normal(values)); }
  }

  /** The bytes hashed for two valid scopes agree exactly when tenant, repositories and groups agree as sets. */
  lemma ScopeBytesAreCanonical(text: Bytes -> bool, version: Bytes, s: AccessScope, t: AccessScope)
    requires ValidScope(text, s) && ValidScope(text, t)
    ensures ScopeBytes(version, s) == ScopeBytes(version, t) <==>
            s.tenantId == t.tenantId && Elements(s.allowedRepos) == Elements(t.allowedRepos)
            && Elements(s.aclGroups) == Elements(t.aclGroups)
  {
    NormalAscends(s.allowedRepos);
    NormalAscends(t.allowedRepos);
    NormalAscends(s.aclGroups);
    NormalAscends(t.aclGroups);
    if ScopeBytes(version, s) == ScopeBytes(version, t) {
      ScopeIsReadBack(text, version, s, t);
    }
    if Elements(s.allowedRepos) == Elements(t.allowedRepos) && Elements(s.aclGroups) == Elements(t.aclGroups) {
      AscendingIsUnique(Normal(s.allowedRepos), Normal(t.allowedRepos));
      AscendingIsUnique(Normal(s.aclGroups), Normal(t.aclGroups));
    }
  }

  lemma ScopeIsReadBack(text: Bytes -> bool, version: Bytes, s: AccessScope, t: AccessScope)
    requires ValidScope(text, s) && ValidScope(text, t) && ScopeBytes(version, s) == ScopeBytes(version, t)
    ensures s.tenantId == t.tenantId && Normal(s.allowedRepos) == Normal(t.allowedRepos)
    ensures Normal(s.aclGroups) == Normal(t.aclGroups)
  {
    hide ListBytes, Normal, Prefixed, ValidValue;
    var n := |version|;
    var sr, sg, tr, tg := ListBytes(Normal(s.allowedRepos)), ListBytes(Normal(s.aclGroups)),
                          ListBytes(Normal(t.allowedRepos)), ListBytes(Normal(t.aclGroups));
    assert ScopeBytes(version, s)[n..] == Prefixed(s.tenantId, 4) + (sr + sg);
    assert ScopeBytes(version, t)[n..] == Prefixed(t.tenantId, 4) + (tr + tg);
    TenantFits(text, s);
    TenantFits(text, t);
    PrefixedIsReadBack(s.tenantId, t.tenantId, sr + sg, tr + tg, 4);
    NormalFits(text, s.allowedRepos);
    NormalFits(text, t.allowedRepos);
    NormalFits(text, s.aclGroups);
    NormalFits(text, t.aclGroups);
    ListIsReadBack(Normal(s.allowedRepos), Normal(t.allowedRepos), sg, tg);
    assert sg + [] == sg && tg + [] == tg;
    ListIsReadBack(Normal(s.aclGroups), Normal(t.aclGroups), [], []);
  }

  lemma TenantFits(text: Bytes -> bool, s: AccessScope)
    requires ValidScope(text, s)
    ensures |s.tenantId| < Pow256(4)
  {
    FourBytes();
  }

  // ---------------------------------------------------------------- commands and node ids

  datatype Command = Command(tenantId: Bytes, repository: Bytes, aclGroup: Bytes, commitSha: Bytes, path: Bytes,
                             sourceSha256: Bytes, sourceSize: nat)

  function Decimal(n: nat): Bytes {
    (if n >= 10 then Decimal(n / 10) else []) + [48 + n % 10]
  }

  function FromDecimal(b: Bytes): int {
    if b == [] then 0 else FromDecimal(b[..|b| - 1]) * 10 + (b[|b| - 1] as int - 48)
  }

  lemma {:induction false} DecimalRoundTrip(n: nat)
    ensures FromDecimal(Decimal(n)) == n
  {
    var d := Decimal(n);
    if n >= 10 {
      DecimalRoundTrip(n / 10);
      assert d[..|d| - 1] == Decimal(n / 10);
    }
  }

  function CommandComponents(c: Command): seq<Bytes> {
    [c.tenantId, c.repository, c.aclGroup, c.commitSha, c.path, c.sourceSha256, Decimal(c.sourceSize)]
  }

  /** The components of a command that are digested, each behind its 64-bit length. */
  method DigestComponents(digest: Bytes -> string, components: seq<Bytes>) returns (d: string)
    ensures d == digest(PrefixedAll(components, 8))
  {
    var hashed: Bytes := [];
    for i := 0 to |components|
      invariant hashed + PrefixedAll(components[i..], 8) == PrefixedAll(components, 8)
    {
      assert components[i..][1..] == components[i + 1..];
      hashed := hashed + Prefixed(components[i], 8);
    }
    assert hashed + [] == hashed;
    d := digest(hashed);
  }

  /** Two commands share a fingerprint exactly when all their parts agree, if the digest has no collisions. */
  lemma {:induction false} CommandFingerprintsIdentify(digest: Bytes -> string, a: Command, b: Command)
    requires forall x, y :: digest(x) == digest(y) ==> x == y
    requires Fit(CommandComponents(a), 8) && Fit(CommandComponents(b), 8)
    ensures digest(PrefixedAll(CommandComponents(a), 8)) == digest(PrefixedAll(CommandComponents(b), 8)) <==> a == b
  {
    if PrefixedAll(CommandComponents(a), 8) == PrefixedAll(CommandComponents(b), 8) {
      ComponentsAreReadBack(CommandComponents(a), CommandComponents(b), 8);
      var p, q := CommandComponents(a), CommandComponents(b);
      assert p[0] == q[0] && p[1] == q[1] && p[2] == q[2] && p[3] == q[3] && p[4] == q[4] && p[5] == q[5]
             && p[6] == q[6];
      DecimalRoundTrip(a.sourceSize);
      DecimalRoundTrip(b.sourceSize);
    }
  }

  /** Scoped node ids collide only when tenant, repository and parser id agree, if the digest has no collisions. */
  lemma ScopedNodeIdsIdentify(digest: Bytes -> string, tag: Bytes, a: seq<Bytes>, b: seq<Bytes>)
    requires forall x, y :: digest(x) == digest(y) ==> x == y
    requires Fit(a, 8) && Fit(b, 8)
    ensures digest(tag + PrefixedAll(a, 8)) == digest(tag + PrefixedAll(b, 8)) <==> a == b
  {
    if tag + PrefixedAll(a, 8) == tag + PrefixedAll(b, 8) {
      assert (tag + PrefixedAll(a, 8))[|tag|..] == PrefixedAll(a, 8);
      assert (tag + PrefixedAll(b, 8))[|tag|..] == PrefixedAll(b, 8);
      ComponentsAreReadBack(a, b, 8);
    }
  }
}
