/** The bytes fed to the revision hash, and the proof that they can be decoded in one way only. */
module Revision {
  import opened Text
  import opened Meta
  import opened Seqs
  import opened StoreSpec
  import R = Range

  // ---- Fixed-width decimals and RFC 3339 timestamps with nanoseconds. ----

  function Pow(base: nat, k: nat): nat {
    if k == 0 then 1 else base * Pow(base, k - 1)
  }

  /** The last `width` digits of n, zero-padded. */
  function Padded(n: nat, width: nat): (s: string)
    ensures |s| == width && R.AllDigits(s)
  {
    if width == 0 then "" else Padded(n / 10, width - 1) + [R.DigitChar(n % 10)]
  }

  lemma {:induction false} PaddedInjective(a: nat, b: nat, width: nat)
    requires a < Pow(10, width) && b < Pow(10, width)
    requires Padded(a, width) == Padded(b, width)
    ensures a == b
  {
    if width > 0 {
      var pa, pb := Padded(a, width), Padded(b, width);
      assert pa[..width - 1] == Padded(a / 10, width - 1) && pb[..width - 1] == Padded(b / 10, width - 1);
      assert pa[width - 1] == R.DigitChar(a % 10) && pb[width - 1] == R.DigitChar(b % 10);
      PaddedInjective(a / 10, b / 10, width - 1);
    }
  }

  function StripZeros(s: string): string {
    if s != "" && s[|s| - 1] == '0' then StripZeros(s[..|s| - 1]) else s
  }

  function Zeros(n: nat): string {
    seq(n, _ => '0')
  }

  lemma {:induction false} StripZerosPads(s: string)
    ensures |StripZeros(s)| <= |s| && s == StripZeros(s) + Zeros(|s| - |StripZeros(s)|)
  {
    if s != "" && s[|s| - 1] == '0' {
      StripZerosPads(s[..|s| - 1]);
    }
  }

  /** ".999999999" in the layout: nothing for zero, otherwise a point and nine digits without trailing zeros. */
  function Fraction(nano: nat): string {
    if nano == 0 then "" else "." + StripZeros(Padded(nano, 9))
  }

  lemma FractionInjective(a: nat, b: nat)
    requires a < Pow(10, 9) && b < Pow(10, 9) && Fraction(a) == Fraction(b)
    ensures a == b
  {
    if a != 0 && b != 0 {
      assert StripZeros(Padded(a, 9)) == Fraction(a)[1..] && StripZeros(Padded(b, 9)) == Fraction(b)[1..];
      StripZerosPads(Padded(a, 9));
      StripZerosPads(Padded(b, 9));
      PaddedInjective(a, b, 9);
    }
  }

  /** The calendar fields after the year fit their fixed widths, as those of every instant do. */
  ghost predicate Writable(t: Timestamp) {
    && t.month < Pow(10, 2) && t.day < Pow(10, 2)
    && t.hour < Pow(10, 2) && t.minute < Pow(10, 2) && t.second < Pow(10, 2) && t.nano < Pow(10, 9)
  }

  /** Four digits, or as many as it takes. */
  function Year(y: nat): (s: string)
    ensures R.AllDigits(s)
  {
    if y < 10000 then Padded(y, 4)
    else
      assert R.AllDigits(R.Decimal(y)) by { R.DecimalShape(y); }
      R.Decimal(y)
  }

  lemma {:induction false} PaddedValue(n: nat, width: nat)
    requires n < Pow(10, width)
    ensures R.DigitsValue(Padded(n, width)) == n
  {
    if width > 0 {
      PaddedValue(n / 10, width - 1);
      var s := Padded(n, width);
      assert s[..width - 1] == Padded(n / 10, width - 1) && s[width - 1] == R.DigitChar(n % 10);
    }
  }

  lemma YearValue(y: nat)
    ensures R.DigitsValue(Year(y)) == y
  {
    if y < 10000 {
      assert Pow(10, 1) == 10 && Pow(10, 2) == 100 && Pow(10, 3) == 1000 && Pow(10, 4) == 10000;
      PaddedValue(y, 4);
    } else {
      R.DecimalShape(y);
    }
  }

  /** From the month to the seconds, in fixed widths. */
  function Seconds(t: Timestamp): string {
    Padded(t.month, 2) + "-" + Padded(t.day, 2) + "T"
    + Padded(t.hour, 2) + ":" + Padded(t.minute, 2) + ":" + Padded(t.second, 2)
  }

  function AfterYear(t: Timestamp): string {
    Seconds(t) + Fraction(t.nano) + "Z"
  }

  /** UpdatedAt.UTC().Format(time.RFC3339Nano) */
  function Stamp(t: Timestamp): string {
    Year(t.year) + ['-'] + AfterYear(t)
  }

  lemma SecondsInjective(a: Timestamp, b: Timestamp)
    requires Writable(a) && Writable(b) && Seconds(a) == Seconds(b)
    ensures a.(year := 0, nano := 0) == b.(year := 0, nano := 0)
  {
    hide Padded;
    assert forall t: Timestamp ::
        && Seconds(t)[0..2] == Padded(t.month, 2) && Seconds(t)[3..5] == Padded(t.day, 2)
        && Seconds(t)[6..8] == Padded(t.hour, 2) && Seconds(t)[9..11] == Padded(t.minute, 2)
        && Seconds(t)[12..14] == Padded(t.second, 2);
    PaddedInjective(a.month, b.month, 2);
    PaddedInjective(a.day, b.day, 2);
    PaddedInjective(a.hour, b.hour, 2);
    PaddedInjective(a.minute, b.minute, 2);
    PaddedInjective(a.second, b.second, 2);
  }

  lemma AfterYearInjective(a: Timestamp, b: Timestamp)
    requires Writable(a) && Writable(b) && AfterYear(a) == AfterYear(b)
    ensures a.(year := 0) == b.(year := 0)
  {
    hide Seconds, Fraction, Writable;
    var s, t := AfterYear(a), AfterYear(b);
    assert |Seconds(a)| == |Seconds(b)| == 14 by { SecondsLength(a); SecondsLength(b); }
    assert s[..14] == Seconds(a) && t[..14] == Seconds(b);
    assert s[14..|s| - 1] == Fraction(a.nano) && t[14..|t| - 1] == Fraction(b.nano);
    SecondsInjective(a, b);
    NanoInRange(a);
    NanoInRange(b);
    FractionInjective(a.nano, b.nano);
  }

  lemma StampInjective(a: Timestamp, b: Timestamp)
    requires Writable(a) && Writable(b) && Stamp(a) == Stamp(b)
    ensures a == b
  {
    hide Year, AfterYear, Writable;
    assert '-' !in Year(a.year) && '-' !in Year(b.year);
    CutAt(Year(a.year), Year(b.year), '-', AfterYear(a), AfterYear(b));
    YearValue(a.year);
    YearValue(b.year);
    AfterYearInjective(a, b);
  }

  lemma NanoInRange(t: Timestamp)
    requires Writable(t)
    ensures t.nano < Pow(10, 9)
  {
  }

  lemma SecondsLength(t: Timestamp)
    ensures |Seconds(t)| == 14 && 'Z' !in Seconds(t)
  {
  }

  /** A stamp ends at its only Z. */
  lemma StampEndsAtZ(t: Timestamp)
    ensures |Stamp(t)| >= 1 && Stamp(t)[|Stamp(t)| - 1] == 'Z' && 'Z' !in Stamp(t)[..|Stamp(t)| - 1]
  {
    SecondsLength(t);
    var digits := Padded(t.nano, 9);
    StripZerosPads(digits);
    assert forall i :: 0 <= i < |StripZeros(digits)| ==> StripZeros(digits)[i] == digits[i] && R.IsDigit(digits[i]);
    assert Stamp(t)[..|Stamp(t)| - 1] == Year(t.year) + ['-'] + (Seconds(t) + Fraction(t.nano));
  }

  // ---- Identifiers, counts and the whole fingerprint. ----

  /** The bytes of an identifier, most significant first. */
  function Bytes(n: nat, width: nat): (s: string)
    ensures |s| == width
  {
    if width == 0 then "" else Bytes(n / 256, width - 1) + [(n % 256) as char]
  }

  lemma {:induction false} BytesInjective(a: nat, b: nat, width: nat)
    requires a < Pow(256, width) && b < Pow(256, width)
    requires Bytes(a, width) == Bytes(b, width)
    ensures a == b
  {
    if width > 0 {
      var pa, pb := Bytes(a, width), Bytes(b, width);
      assert pa[..width - 1] == Bytes(a / 256, width - 1) && pb[..width - 1] == Bytes(b / 256, width - 1);
      assert pa[width - 1] == (a % 256) as char && pb[width - 1] == (b % 256) as char;
      BytesInjective(a / 256, b / 256, width - 1);
    }
  }

  /** An identifier has 16 bytes. */
  ghost predicate IsUuid(id: Id) {
    id < Pow(256, 16)
  }

  function IdBytes(id: Id): (s: string)
    ensures |s| == 16
  {
    Bytes(id, 16)
  }

  lemma CountShape(n: nat)
    ensures R.Decimal(n) != "" && '|' !in R.Decimal(n)
    ensures R.AllDigits(R.Decimal(n)) && R.DigitsValue(R.Decimal(n)) == n
  {
    R.DecimalShape(n);
  }

  type Version = (Id, Timestamp)

  function VersionBytes(v: Version): string {
    IdBytes(v.0) + Stamp(v.1)
  }

  function ServerBytes(servers: seq<Version>): string {
    if servers == [] then "" else VersionBytes(servers[0]) + ServerBytes(servers[1..])
  }

  function IdListBytes(ids: seq<Id>): string {
    if ids == [] then "" else IdBytes(ids[0]) + IdListBytes(ids[1..])
  }

  function Fingerprint(servers: seq<Version>, tables: seq<Id>, functions: seq<Id>): string {
    "s:" + R.Decimal(|servers|) + "|" + ServerBytes(servers)
    + "t:" + R.Decimal(|tables|) + "|" + IdListBytes(tables)
    + "f:" + R.Decimal(|functions|) + "|" + IdListBytes(functions)
  }

  ghost predicate Encodable(servers: seq<Version>, tables: seq<Id>, functions: seq<Id>) {
    && (forall v :: v in servers ==> IsUuid(v.0) && Writable(v.1))
    && (forall id :: id in tables ==> IsUuid(id))
    && (forall id :: id in functions ==> IsUuid(id))
  }

  lemma CutAfterPrefix(prefix: string, a: string, b: string, sep: char, ra: string, rb: string)
    requires sep !in a && sep !in b
    requires prefix + a + [sep] + ra == prefix + b + [sep] + rb
    ensures a == b && ra == rb
  {
    var ta, tb := a + [sep] + ra, b + [sep] + rb;
    assert prefix + a + [sep] + ra == prefix + ta && prefix + b + [sep] + rb == prefix + tb;
    assert ta == (prefix + ta)[|prefix|..] && tb == (prefix + tb)[|prefix|..];
    CutAt(a, b, sep, ra, rb);
  }

  lemma CountIsReadBack(prefix: string, n: nat, m: nat, rn: string, rm: string)
    requires prefix + R.Decimal(n) + "|" + rn == prefix + R.Decimal(m) + "|" + rm
    ensures n == m && rn == rm
  {
    hide R.Decimal;
    CountShape(n);
    CountShape(m);
    CutAfterPrefix(prefix, R.Decimal(n), R.Decimal(m), '|', rn, rm);
  }

  lemma VersionIsReadBack(v: Version, w: Version, rv: string, rw: string)
    requires IsUuid(v.0) && IsUuid(w.0) && Writable(v.1) && Writable(w.1)
    requires VersionBytes(v) + rv == VersionBytes(w) + rw
    ensures v == w && rv == rw
  {
    hide Stamp, Writable, Bytes;
    var sv, sw := Stamp(v.1), Stamp(w.1);
    var all := IdBytes(v.0) + sv + rv;
    assert all[..16] == IdBytes(v.0) && all[..16] == IdBytes(w.0);
    assert all[16..] == sv + rv && all[16..] == sw + rw;
    BytesInjective(v.0, w.0, 16);
    StampEndsAtZ(v.1);
    StampEndsAtZ(w.1);
    var cv, cw := sv[..|sv| - 1], sw[..|sw| - 1];
    assert sv + rv == cv + ['Z'] + rv && sw + rw == cw + ['Z'] + rw;
    CutAt(cv, cw, 'Z', rv, rw);
    assert sv == cv + ['Z'] && sw == cw + ['Z'];
    StampInjective(v.1, w.1);
  }

  lemma {:induction false} ServersAreReadBack(a: seq<Version>, b: seq<Version>, ra: string, rb: string)
    requires |a| == |b| && ServerBytes(a) + ra == ServerBytes(b) + rb
    requires forall v :: v in a || v in b ==> IsUuid(v.0) && Writable(v.1)
    ensures a == b && ra == rb
  {
    hide VersionBytes, IsUuid, Writable;
    if a != [] {
      var va, vb := ServerBytes(a[1..]) + ra, ServerBytes(b[1..]) + rb;
      assert ServerBytes(a) + ra == VersionBytes(a[0]) + va;
      assert ServerBytes(b) + rb == VersionBytes(b[0]) + vb;
      assert a[0] in a && b[0] in b;
      VersionIsReadBack(a[0], b[0], va, vb);
      ServersAreReadBack(a[1..], b[1..], ra, rb);
    } else {
      assert ServerBytes(a) + ra == ra && ServerBytes(b) + rb == rb;
    }
  }

  lemma {:induction false} IdsAreReadBack(a: seq<Id>, b: seq<Id>, ra: string, rb: string)
    requires |a| == |b| && IdListBytes(a) + ra == IdListBytes(b) + rb
    requires forall id :: id in a || id in b ==> IsUuid(id)
    ensures a == b && ra == rb
  {
    hide Bytes;
    if a != [] {
      var va, vb := IdListBytes(a[1..]) + ra, IdListBytes(b[1..]) + rb;
      var all := IdListBytes(a) + ra;
      assert all == IdBytes(a[0]) + va && all == IdBytes(b[0]) + vb;
      assert all[..16] == IdBytes(a[0]) && all[..16] == IdBytes(b[0]);
      assert all[16..] == va && all[16..] == vb;
      assert a[0] in a && b[0] in b;
      BytesInjective(a[0], b[0], 16);
      IdsAreReadBack(a[1..], b[1..], ra, rb);
    } else {
      assert IdListBytes(a) + ra == ra && IdListBytes(b) + rb == rb;
    }
  }

  /** The fingerprint determines the servers with their timestamps, the tables and the functions it was made from. */
  lemma FingerprintInjective(s1: seq<Version>, t1: seq<Id>, f1: seq<Id>, s2: seq<Version>, t2: seq<Id>, f2: seq<Id>)
    requires Encodable(s1, t1, f1) && Encodable(s2, t2, f2)
    requires Fingerprint(s1, t1, f1) == Fingerprint(s2, t2, f2)
    ensures s1 == s2 && t1 == t2 && f1 == f2
  {
    hide R.Decimal, ServerBytes, IdListBytes, IsUuid, Writable;
    var endF1, endF2 := "f:" + R.Decimal(|f1|) + "|" + IdListBytes(f1), "f:" + R.Decimal(|f2|) + "|" + IdListBytes(f2);
    var endT1 := "t:" + R.Decimal(|t1|) + "|" + (IdListBytes(t1) + endF1);
    var endT2 := "t:" + R.Decimal(|t2|) + "|" + (IdListBytes(t2) + endF2);
    assert Fingerprint(s1, t1, f1) == "s:" + R.Decimal(|s1|) + "|" + (ServerBytes(s1) + endT1);
    assert Fingerprint(s2, t2, f2) == "s:" + R.Decimal(|s2|) + "|" + (ServerBytes(s2) + endT2);
    CountIsReadBack("s:", |s1|, |s2|, ServerBytes(s1) + endT1, ServerBytes(s2) + endT2);
    ServersAreReadBack(s1, s2, endT1, endT2);
    CountIsReadBack("t:", |t1|, |t2|, IdListBytes(t1) + endF1, IdListBytes(t2) + endF2);
    IdsAreReadBack(t1, t2, endF1, endF2);
    CountIsReadBack("f:", |f1|, |f2|, IdListBytes(f1), IdListBytes(f2));
    assert IdListBytes(f1) + "" == IdListBytes(f2) + "";
    IdsAreReadBack(f1, f2, "", "");
  }

  // ---- Computing it from the store. ----

  predicate ServerBefore(a: Server, b: Server) {
    Less(a.name, b.name)
  }

  predicate TableBefore(a: Table, b: Table) {
    if a.schema == b.schema then Less(a.name, b.name) else Less(a.schema, b.schema)
  }

  predicate FunctionBefore(a: Function, b: Function) {
    if a.schema == b.schema then Less(a.name, b.name) else Less(a.schema, b.schema)
  }

  /** ListServers, ListTables and ListFunctions: the records in the order they are hashed. */
  function Servers(snap: Snapshot): seq<Server> {
    Sort(snap.servers, ServerBefore)
  }

  function Tables(snap: Snapshot): seq<Table> {
    Sort(snap.tables, TableBefore)
  }

  function Functions(snap: Snapshot): seq<Function> {
    Sort(snap.functions, FunctionBefore)
  }

  function Versions(servers: seq<Server>): seq<Version> {
    seq(|servers|, i requires 0 <= i < |servers| => (servers[i].id, servers[i].updatedAt))
  }

  function TableIds(tables: seq<Table>): seq<Id> {
    seq(|tables|, i requires 0 <= i < |tables| => tables[i].id)
  }

  function FunctionIds(functions: seq<Function>): seq<Id> {
    seq(|functions|, i requires 0 <= i < |functions| => functions[i].id)
  }

  /** What the hash of a store's revision is taken of. */
  function RevisionBytes(snap: Snapshot): string {
    Fingerprint(Versions(Servers(snap)), TableIds(Tables(snap)), FunctionIds(Functions(snap)))
  }

  lemma {:induction false} ServerBytesSnoc(servers: seq<Version>, v: Version)
    ensures ServerBytes(servers + [v]) == ServerBytes(servers) + VersionBytes(v)
  {
    hide VersionBytes;
    if servers != [] {
      ServerBytesSnoc(servers[1..], v);
      assert (servers + [v])[1..] == servers[1..] + [v];
    }
  }

  lemma {:induction false} IdListBytesSnoc(ids: seq<Id>, id: Id)
    ensures IdListBytes(ids + [id]) == IdListBytes(ids) + IdBytes(id)
  {
    if ids != [] {
      IdListBytesSnoc(ids[1..], id);
      assert (ids + [id])[1..] == ids[1..] + [id];
    }
  }

  /** One list written into the running hash. */
  method WriteIds(h: string, ids: seq<Id>) returns (out: string)
    ensures out == h + IdListBytes(ids)
  {
    out := h;
    for i := 0 to |ids|
      invariant out == h + IdListBytes(ids[..i])
    {
      IdListBytesSnoc(ids[..i], ids[i]);
      assert ids[..i + 1] == ids[..i] + [ids[i]];
      out := out + IdBytes(ids[i]);
    }
    assert ids[..|ids|] == ids;
  }

  method WriteVersions(h: string, versions: seq<Version>) returns (out: string)
    ensures out == h + ServerBytes(versions)
  {
    hide VersionBytes;
    out := h;
    for i := 0 to |versions|
      invariant out == h + ServerBytes(versions[..i])
    {
      ServerBytesSnoc(versions[..i], versions[i]);
      assert versions[..i + 1] == versions[..i] + [versions[i]];
      out := out + VersionBytes(versions[i]);
    }
    assert versions[..|versions|] == versions;
  }

  /** storeRevision, up to the hash of the bytes. */
  method StoreRevision(snap: Snapshot) returns (h: string)
    ensures h == RevisionBytes(snap)
  {
    var versions, tables, functions := Versions(Servers(snap)), TableIds(Tables(snap)), FunctionIds(Functions(snap));
    hide Versions, Servers, TableIds, Tables, FunctionIds, Functions, R.Decimal, ServerBytes, IdListBytes;
    h := "s:" + R.Decimal(|versions|) + "|";
    h := WriteVersions(h, versions);
    h := h + "t:" + R.Decimal(|tables|) + "|";
    h := WriteIds(h, tables);
    h := h + "f:" + R.Decimal(|functions|) + "|";
    h := WriteIds(h, functions);
    assert h == Fingerprint(versions, tables, functions);
  }
}
