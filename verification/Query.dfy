/** The signer's canonical query string: percent-encoded, sorted, and readable back. */
module Query {
  import opened Ids
  import Order

  type byte = n: int | 0 <= n < 256

  // -------------------------------------------------------------------- UTF-8

  function Utf8Char(c: char): (r: seq<byte>)
    ensures 1 <= |r| <= 4
  {
    var n := c as int;
    if n < 0x80 then [n]
    else if n < 0x800 then [0xC0 + n / 64, 0x80 + n % 64]
    else if n < 0x10000 then [0xE0 + n / 4096, 0x80 + n / 64 % 64, 0x80 + n % 64]
    else [0xF0 + n / 262144, 0x80 + n / 4096 % 64, 0x80 + n / 64 % 64, 0x80 + n % 64]
  }

  function Utf8(s: string): seq<byte> {
    if s == [] then [] else Utf8Char(s[0]) + Utf8(s[1..])
  }

  predicate IsScalar(n: int) {
    0 <= n < 0xD800 || 0xE000 <= n < 0x11_0000
  }

  /** How many bytes the character at the front takes. */
  function Width(lead: byte): nat {
    if lead < 0xC0 then 1 else if lead < 0xE0 then 2 else if lead < 0xF0 then 3 else 4
  }

  function Scalar(bs: seq<byte>): int
    requires bs != [] && |bs| >= Width(bs[0])
  {
    var lead: int := bs[0];
    if lead < 0xC0 then lead
    else if lead < 0xE0 then (lead - 0xC0) * 64 + Low(bs[1])
    else if lead < 0xF0 then (lead - 0xE0) * 4096 + Low(bs[1]) * 64 + Low(bs[2])
    else (lead - 0xF0) * 262144 + Low(bs[1]) * 4096 + Low(bs[2]) * 64 + Low(bs[3])
  }

  function Low(b: byte): int {
    b - 0x80
  }

  function FromUtf8(bs: seq<byte>): Option<string> {
    if bs == [] then Some([])
    else if |bs| < Width(bs[0]) || !IsScalar(Scalar(bs)) then None
    else
      match FromUtf8(bs[Width(bs[0])..])
      case None => None
      case Some(rest) => Some([Scalar(bs) as char] + rest)
  }

  lemma {:induction false} FrontCharacter(c: char, rest: seq<byte>)
    ensures var bs := Utf8Char(c) + rest;
            Width(bs[0]) == |Utf8Char(c)| && Scalar(bs) == c as int && bs[Width(bs[0])..] == rest
  {
    var n, bs := c as int, Utf8Char(c) + rest;
    Digits(n);
    assert bs[|Utf8Char(c)|..] == rest;
    assert forall i :: 0 <= i < |Utf8Char(c)| ==> bs[i] == Utf8Char(c)[i];
  }

  lemma {:induction false} Digits(n: nat)
    ensures n == n / 64 * 64 + n % 64
    ensures n / 64 == n / 4096 * 64 + n / 64 % 64
    ensures n / 4096 == n / 262144 * 64 + n / 4096 % 64
  {
  }

  lemma {:induction false} Utf8RoundTrip(s: string)
    ensures FromUtf8(Utf8(s)) == Some(s)
  {
    if s != [] {
      FrontCharacter(s[0], Utf8(s[1..]));
      Utf8RoundTrip(s[1..]);
      assert s == [s[0]] + s[1..];
    }
  }

  // --------------------------------------------------------- percent-encoding

  predicate Unreserved(c: char) {
    'A' <= c <= 'Z' || 'a' <= c <= 'z' || '0' <= c <= '9' || c == '-' || c == '_' || c == '.' || c == '~'
  }

  function Hex(d: nat): char
    requires d < 16
  {
    if d < 10 then ('0' as int + d) as char else ('A' as int + d - 10) as char
  }

  predicate IsHex(c: char) {
    '0' <= c <= '9' || 'A' <= c <= 'F'
  }

  function HexValue(c: char): nat
    requires IsHex(c)
  {
    if c <= '9' then c as int - '0' as int else c as int - 'A' as int + 10
  }

  function EscapeByte(b: byte): string {
    if Unreserved(b as char) then [b as char] else ['%', Hex(b / 16), Hex(b % 16)]
  }

  function Escape(bs: seq<byte>): string {
    if bs == [] then [] else EscapeByte(bs[0]) + Escape(bs[1..])
  }

  function Encoded(s: string): string {
    Escape(Utf8(s))
  }

  function Unescape(t: string): Option<seq<byte>> {
    if t == [] then Some([])
    else if Unreserved(t[0]) then
      match Unescape(t[1..])
      case None => None
      case Some(rest) => Some([t[0] as int] + rest)
    else if |t| < 3 || t[0] != '%' || !IsHex(t[1]) || !IsHex(t[2]) then None
    else
      match Unescape(t[3..])
      case None => None
      case Some(rest) => Some([HexValue(t[1]) * 16 + HexValue(t[2])] + rest)
  }

  function Decoded(t: string): Option<string> {
    match Unescape(t)
    case None => None
    case Some(bs) => FromUtf8(bs)
  }

  lemma {:induction false} UnescapeEscape(bs: seq<byte>)
    ensures Unescape(Escape(bs)) == Some(bs)
  {
    if bs != [] {
      var t, rest := Escape(bs), Escape(bs[1..]);
      UnescapeEscape(bs[1..]);
      assert bs == [bs[0]] + bs[1..];
      if Unreserved(bs[0] as char) {
        assert t[1..] == rest;
      } else {
        assert t[3..] == rest;
      }
    }
  }

  /** Decoding undoes encoding, for every text. */
  lemma {:induction false} DecodeEncode(s: string)
    ensures Decoded(Encoded(s)) == Some(s)
  {
    UnescapeEscape(Utf8(s));
    Utf8RoundTrip(s);
  }

  /** Only unreserved characters and three-character escapes. */
  predicate WellFormed(t: string) {
    t == []
    || (Unreserved(t[0]) && WellFormed(t[1..]))
    || (|t| >= 3 && t[0] == '%' && IsHex(t[1]) && IsHex(t[2]) && WellFormed(t[3..]))
  }

  lemma {:induction false} EscapeIsWellFormed(bs: seq<byte>)
    ensures WellFormed(Escape(bs))
  {
    if bs != [] {
      var t := Escape(bs);
      EscapeIsWellFormed(bs[1..]);
      if Unreserved(bs[0] as char) {
        assert t[1..] == Escape(bs[1..]);
      } else {
        assert t[3..] == Escape(bs[1..]);
      }
    }
  }

  lemma {:induction false} WellFormedAlphabet(t: string, i: nat)
    requires WellFormed(t) && i < |t|
    ensures Unreserved(t[i]) || t[i] == '%'
  {
    if i > 0 && Unreserved(t[0]) && WellFormed(t[1..]) {
      WellFormedAlphabet(t[1..], i - 1);
    } else if i >= 3 {
      WellFormedAlphabet(t[3..], i - 3);
    }
  }

  const HEX_DIGITS: string := "0123456789ABCDEF"

  lemma {:induction false} EscapeConcat(a: seq<byte>, b: seq<byte>)
    ensures Escape(a + b) == Escape(a) + Escape(b)
  {
    if a == [] {
      assert a + b == b;
    } else {
      assert (a + b)[1..] == a[1..] + b;
      EscapeConcat(a[1..], b);
    }
  }

  lemma {:induction false} EscapedByte(b: byte)
    ensures Escape([b]) == if Unreserved(b as char) then [b as char] else ['%', HEX_DIGITS[b / 16], HEX_DIGITS[b % 16]]
  {
    assert Escape([b]) == EscapeByte(b) + Escape([]);
    assert forall d: nat :: d < 16 ==> Hex(d) == HEX_DIGITS[d];
  }

  lemma {:induction false} Utf8One(c: char)
    ensures Utf8([c]) == Utf8Char(c)
  {
    assert Utf8([c]) == Utf8Char(c) + Utf8([]) == Utf8Char(c) + [];
  }

  /** The encoding goes character by character. */
  lemma {:induction false} EncodedByCharacter(s: string)
    requires s != []
    ensures Encoded(s) == Encoded([s[0]]) + Encoded(s[1..])
  {
    Utf8One(s[0]);
    EscapeConcat(Utf8Char(s[0]), Utf8(s[1..]));
  }

  /** Letters, digits and `-_.~` stay; every other ASCII character becomes one escape of upper-case hex. */
  lemma {:induction false} EncodedAscii(c: char)
    requires c as int < 128
    ensures Encoded([c]) ==
            if 'A' <= c <= 'Z' || 'a' <= c <= 'z' || '0' <= c <= '9' || c in "-_.~" then [c]
            else ['%', HEX_DIGITS[c as int / 16], HEX_DIGITS[c as int % 16]]
  {
    Utf8One(c);
    EscapedByte(c as int);
  }

  /** Characters of two, three and four bytes. */
  lemma {:induction false} Utf8Examples()
    ensures Utf8Char('\U{00E9}') == [0xC3, 0xA9]
    ensures Utf8Char('\U{20AC}') == [0xE2, 0x82, 0xAC]
    ensures Utf8Char('\U{1F600}') == [0xF0, 0x9F, 0x98, 0x80]
  {
  }

  method PercentEncode(s: string) returns (out: string)
    ensures out == Encoded(s) && WellFormed(out) && Decoded(out) == Some(s)
  {
    var bytes := Utf8(s);
    out := [];
    for n := 0 to |bytes|
      invariant out + Escape(bytes[n..]) == Escape(bytes)
    {
      assert bytes[n..][1..] == bytes[n + 1..];
      out := out + EscapeByte(bytes[n]);
    }
    assert out == Escape(bytes);
    EscapeIsWellFormed(bytes);
    DecodeEncode(s);
  }

  // ---------------------------------------------------------- the query string

  datatype Pair = Pair(key: string, value: string)

  datatype Item = Item(key: string, value: Option<string>)

  predicate PairLe(a: Pair, b: Pair) {
    if a.key == b.key then Order.StringLe(a.value, b.value) else Order.StringLe(a.key, b.key)
  }

  function ValueOf(v: Option<string>): string {
    if v.Some? then v.value else ""
  }

  /** The query's items as listed, a missing value read as empty, both halves encoded. */
  function EncodedItems(items: seq<Item>): seq<Pair> {
    seq(|items|, i requires 0 <= i < |items| => Pair(Encoded(items[i].key), Encoded(ValueOf(items[i].value))))
  }

  function Joined(p: Pair): string {
    p.key + "=" + p.value
  }

  function Join(ps: seq<Pair>): string {
    if ps == [] then "" else if |ps| == 1 then Joined(ps[0]) else Joined(ps[0]) + "&" + Join(ps[1..])
  }

  function Canonical(items: seq<Item>): string {
    Join(Order.Sort(EncodedItems(items), PairLe))
  }

  // ------------------------------------------------------------ reading it back

  function Find(t: string, c: char): nat {
    if t == [] || t[0] == c then 0 else 1 + Find(t[1..], c)
  }

  lemma {:induction false} FindIn(a: string, c: char, b: string)
    requires c !in a
    ensures Find(a, c) == |a| && Find(a + [c] + b, c) == |a|
  {
    if a != [] {
      assert (a + [c] + b)[1..] == a[1..] + [c] + b;
      assert forall x :: x in a[1..] ==> x in a;
      FindIn(a[1..], c, b);
    }
  }

  lemma {:induction false} FindBound(t: string, c: char)
    ensures Find(t, c) <= |t|
  {
    if t != [] && t[0] != c {
      FindBound(t[1..], c);
    }
  }

  function SplitPair(t: string): Pair {
    FindBound(t, '=');
    var i := Find(t, '=');
    Pair(t[..i], if i < |t| then t[i + 1..] else "")
  }

  function Split(t: string): seq<Pair>
    decreases |t|
  {
    if t == "" then []
    else
      FindBound(t, '&');
      var i := Find(t, '&');
      [SplitPair(t[..i])] + if i < |t| then Split(t[i + 1..]) else []
  }

  ghost predicate Clean(p: Pair) {
    '&' !in p.key && '=' !in p.key && '&' !in p.value && '=' !in p.value
  }

  lemma {:induction false} SplitJoined(p: Pair)
    requires Clean(p)
    ensures SplitPair(Joined(p)) == p && '&' !in Joined(p) && Joined(p) != ""
  {
    FindIn(p.key, '=', p.value);
    var t := Joined(p);
    assert t[..|p.key|] == p.key && t[|p.key| + 1..] == p.value;
  }

  /** Splitting undoes joining. */
  lemma {:induction false} SplitJoin(ps: seq<Pair>)
    requires forall i :: 0 <= i < |ps| ==> Clean(ps[i])
    ensures Split(Join(ps)) == ps
  {
    if ps != [] {
      var first := Joined(ps[0]);
      SplitJoined(ps[0]);
      if |ps| == 1 {
        FindIn(first, '&', "");
        assert first[..|first|] == first;
      } else {
        var t := Join(ps);
        FindIn(first, '&', Join(ps[1..]));
        assert t == first + ['&'] + Join(ps[1..]);
        assert t[..|first|] == first && t[|first| + 1..] == Join(ps[1..]);
        SplitJoin(ps[1..]);
      }
    }
  }

  lemma {:induction false} EncodedIsClean(s: string)
    ensures '&' !in Encoded(s) && '=' !in Encoded(s)
  {
    EscapeIsWellFormed(Utf8(s));
    forall i | 0 <= i < |Encoded(s)| ensures Encoded(s)[i] != '&' && Encoded(s)[i] != '=' {
      WellFormedAlphabet(Encoded(s), i);
    }
  }

  /** The canonical string splits into exactly the sorted encoded items. */
  lemma {:induction false} CanonicalSplits(items: seq<Item>)
    ensures Split(Canonical(items)) == Order.Sort(EncodedItems(items), PairLe)
  {
    var coded := EncodedItems(items);
    var sorted := Order.Sort(coded, PairLe);
    Order.SortKeepsElements(coded, PairLe);
    Order.SameElements(sorted, coded);
    forall i | 0 <= i < |sorted| ensures Clean(sorted[i]) {
      var p := sorted[i];
      assert p in sorted && p in coded;
      var j :| 0 <= j < |coded| && coded[j] == p;
      EncodedIsClean(items[j].key);
      EncodedIsClean(ValueOf(items[j].value));
    }
    SplitJoin(sorted);
  }

  // ------------------------------------------------------------- order, equality

  /** `items` lists the dictionary `q`, each key once, in some order. */
  ghost predicate Lists(items: seq<Item>, q: map<string, Option<string>>) {
    && (forall i, j :: 0 <= i < j < |items| ==> items[i].key != items[j].key)
    && (forall i :: 0 <= i < |items| ==> items[i].key in q && q[items[i].key] == items[i].value)
    && (forall k :: k in q ==> exists i :: 0 <= i < |items| && items[i].key == k)
  }

  /** What the query says: a missing value is an empty one. */
  function Meaning(q: map<string, Option<string>>): map<string, string> {
    map k | k in q :: ValueOf(q[k])
  }

  lemma {:induction false} EncodedInjective(s: string, t: string)
    requires Encoded(s) == Encoded(t)
    ensures s == t
  {
    DecodeEncode(s);
    DecodeEncode(t);
  }

  /** The encoded items hold a pair exactly when the query means it. */
  lemma {:induction false} ItemsMean(items: seq<Item>, q: map<string, Option<string>>, k: string, v: string)
    requires Lists(items, q)
    ensures Pair(Encoded(k), Encoded(v)) in EncodedItems(items) <==> k in Meaning(q) && Meaning(q)[k] == v
  {
    var coded := EncodedItems(items);
    if Pair(Encoded(k), Encoded(v)) in coded {
      var i :| 0 <= i < |coded| && coded[i] == Pair(Encoded(k), Encoded(v));
      EncodedInjective(items[i].key, k);
      EncodedInjective(ValueOf(items[i].value), v);
    }
    if k in Meaning(q) && Meaning(q)[k] == v {
      var i :| 0 <= i < |items| && items[i].key == k;
      assert coded[i] == Pair(Encoded(k), Encoded(v));
    }
  }

  lemma {:induction false} ItemsDistinct(items: seq<Item>, q: map<string, Option<string>>)
    requires Lists(items, q)
    ensures Order.NoDuplicates(EncodedItems(items))
  {
    var coded := EncodedItems(items);
    forall i, j | 0 <= i < j < |coded| ensures coded[i] != coded[j] {
      if coded[i] == coded[j] {
        EncodedInjective(items[i].key, items[j].key);
        assert false;
      }
    }
  }

  lemma {:induction false} PairOrder(ps: seq<Pair>)
    ensures Order.Orders(PairLe, ps) && Order.Separates(PairLe, ps)
  {
    forall a, b | a in ps && b in ps ensures PairLe(a, b) || PairLe(b, a) {
      Order.StringLeTotal(a.key, b.key);
      Order.StringLeTotal(a.value, b.value);
    }
    forall a, b, c | a in ps && b in ps && c in ps && PairLe(a, b) && PairLe(b, c) ensures PairLe(a, c) {
      PairLeTransitive(a, b, c);
    }
    forall a, b | a in ps && b in ps && PairLe(a, b) && PairLe(b, a) ensures a == b {
      PairLeAntisymmetric(a, b);
    }
  }

  lemma {:induction false} PairLeTransitive(a: Pair, b: Pair, c: Pair)
    requires PairLe(a, b) && PairLe(b, c)
    ensures PairLe(a, c)
  {
    if a.key == b.key == c.key {
      Order.StringLeTransitive(a.value, b.value, c.value);
    } else if a.key != b.key && b.key != c.key {
      Order.StringLeTransitive(a.key, b.key, c.key);
      if a.key == c.key {
        Order.StringLeAntisymmetric(a.key, b.key);
        assert false;
      }
    }
  }

  lemma {:induction false} PairLeAntisymmetric(a: Pair, b: Pair)
    requires PairLe(a, b) && PairLe(b, a)
    ensures a == b
  {
    if a.key == b.key {
      Order.StringLeAntisymmetric(a.value, b.value);
    } else {
      Order.StringLeAntisymmetric(a.key, b.key);
      assert false;
    }
  }

  /** Two lists without repeats and with the same elements are permutations of each other. */
  lemma {:induction false} SameElementsPermute(a: seq<Pair>, b: seq<Pair>)
    requires Order.NoDuplicates(a) && Order.NoDuplicates(b) && forall p :: p in a <==> p in b
    ensures multiset(a) == multiset(b)
  {
    Order.NoDuplicatesCount(a);
    Order.NoDuplicatesCount(b);
    forall p ensures multiset(a)[p] == multiset(b)[p] {
      assert p in a <==> p in multiset(a);
      assert p in b <==> p in multiset(b);
    }
  }

  /** Every encoded item is the encoding of something the query means. */
  lemma {:induction false} SameItems(a: seq<Item>, b: seq<Item>,
                                     qa: map<string, Option<string>>, qb: map<string, Option<string>>, p: Pair)
    requires Lists(a, qa) && Lists(b, qb) && Meaning(qa) == Meaning(qb) && p in EncodedItems(a)
    ensures p in EncodedItems(b)
  {
    var i :| 0 <= i < |a| && EncodedItems(a)[i] == p;
    ItemsMean(a, qa, a[i].key, ValueOf(a[i].value));
    ItemsMean(b, qb, a[i].key, ValueOf(a[i].value));
  }

  /** Two queries have the same canonical string exactly when they mean the same, in whatever order
      their items are listed. */
  lemma {:induction false} CanonicalExactly(a: seq<Item>, b: seq<Item>, qa: map<string, Option<string>>, qb: map<string, Option<string>>)
    requires Lists(a, qa) && Lists(b, qb)
    ensures Canonical(a) == Canonical(b) <==> Meaning(qa) == Meaning(qb)
  {
    CanonicalReadsBack(a, qa);
    CanonicalReadsBack(b, qb);
    if Meaning(qa) == Meaning(qb) {
      SameCanonical(a, b, qa, qb);
    }
  }

  lemma {:induction false} SameCanonical(a: seq<Item>, b: seq<Item>, qa: map<string, Option<string>>, qb: map<string, Option<string>>)
    requires Lists(a, qa) && Lists(b, qb) && Meaning(qa) == Meaning(qb)
    ensures Canonical(a) == Canonical(b)
  {
    hide Lists, Meaning, Encoded, PairLe, Order.NoDuplicates, Order.Orders, Order.Separates;
    var ca, cb := EncodedItems(a), EncodedItems(b);
    forall p ensures p in ca <==> p in cb {
      if p in ca { SameItems(a, b, qa, qb, p); }
      if p in cb { SameItems(b, a, qb, qa, p); }
    }
    ItemsDistinct(a, qa);
    ItemsDistinct(b, qb);
    SameElementsPermute(ca, cb);
    PairOrder(ca);
    Order.SortOfPermutation(ca, cb, PairLe);
  }

  // ------------------------------------------------------------ the whole reader

  /** Read a canonical string back into the query it means. */
  function ReadBack(ps: seq<Pair>): map<string, string> {
    if ps == [] then map[]
    else
      match (Decoded(ps[|ps| - 1].key), Decoded(ps[|ps| - 1].value))
      case (Some(k), Some(v)) => ReadBack(ps[..|ps| - 1])[k := v]
      case _ => ReadBack(ps[..|ps| - 1])
  }


  function Code(m: map<string, string>, k: string): Pair
    requires k in m
  {
    Pair(Encoded(k), Encoded(m[k]))
  }

  ghost predicate Codes(m: map<string, string>, p: Pair) {
    exists k :: k in m && p == Code(m, k)
  }

  lemma {:induction false} CodeInjective(m: map<string, string>, j: string, k: string)
    requires j in m && k in m && Code(m, j) == Code(m, k)
    ensures j == k
  {
    EncodedInjective(j, k);
  }

  lemma {:induction false} CodeDecodes(m: map<string, string>, k: string)
    requires k in m
    ensures Decoded(Code(m, k).key) == Some(k) && Decoded(Code(m, k).value) == Some(m[k])
  {
    DecodeEncode(k);
    DecodeEncode(m[k]);
  }

  /** Reading back any arrangement of a query's encoded items gives the query. */
  lemma {:induction false} ReadsBack(ps: seq<Pair>, m: map<string, string>)
    requires forall p :: p in ps ==> Codes(m, p)
    ensures forall k :: k in ReadBack(ps) <==> k in m && Code(m, k) in ps
    ensures forall k :: k in ReadBack(ps) ==> ReadBack(ps)[k] == m[k]
  {
    hide Code, Decoded;
    if ps != [] {
      var n := |ps| - 1;
      assert ps == ps[..n] + [ps[n]];
      ReadsBack(ps[..n], m);
      assert Codes(m, ps[n]);
      var k :| k in m && ps[n] == Code(m, k);
      CodeDecodes(m, k);
      forall j | j in m && Code(m, j) == ps[n] ensures j == k {
        CodeInjective(m, j, k);
      }
    }
  }

  lemma {:induction false} ItemIsCode(items: seq<Item>, q: map<string, Option<string>>, p: Pair)
    requires Lists(items, q) && p in EncodedItems(items)
    ensures Codes(Meaning(q), p)
  {
    var j :| 0 <= j < |items| && EncodedItems(items)[j] == p;
    assert items[j].key in Meaning(q) && p == Code(Meaning(q), items[j].key);
  }

  /** The canonical string reads back to what the query means. */
  lemma {:induction false} CanonicalReadsBack(items: seq<Item>, q: map<string, Option<string>>)
    requires Lists(items, q)
    ensures ReadBack(Split(Canonical(items))) == Meaning(q)
  {
    hide Lists, Codes, Canonical, EncodedItems, Meaning, ReadBack, Split, PairLe, Encoded;
    var coded, m := EncodedItems(items), Meaning(q);
    var sorted := Order.Sort(coded, PairLe);
    CanonicalSplits(items);
    Order.SortKeepsElements(coded, PairLe);
    Order.SameElements(sorted, coded);
    forall p | p in sorted ensures Codes(m, p) {
      ItemIsCode(items, q, p);
    }
    ReadsBack(sorted, m);
    forall k | k in m ensures Code(m, k) in sorted {
      ItemsMean(items, q, k, m[k]);
    }
  }

  /** The canonical string lists its parameters in ascending order of the encoded keys, and of the encoded
      values where the keys are one: each begins the next or is smaller at the first difference. */
  lemma {:induction false} CanonicalAscends(items: seq<Item>, i: nat, j: nat)
    requires i < j < |Split(Canonical(items))|
    ensures var ps := Split(Canonical(items));
            && Order.Ascends(ps[i].key, ps[j].key)
            && (ps[i].key == ps[j].key ==> Order.Ascends(ps[i].value, ps[j].value))
  {
    hide Canonical, EncodedItems, Split, Order.Orders, Order.Separates, Order.Ascends;
    var coded := EncodedItems(items);
    CanonicalSplits(items);
    PairOrder(coded);
    Order.SortSorts(coded, PairLe);
    var p, q := Order.Sort(coded, PairLe)[i], Order.Sort(coded, PairLe)[j];
    assert PairLe(p, q);
    Order.StringLeExactly(p.key, q.key);
    Order.StringLeExactly(p.value, q.value);
    Order.StringLeTotal(p.key, p.key);
  }

  method CanonicalQuery(items: seq<Item>) returns (out: string)
    ensures out == Canonical(items)
  {
    if items == [] {
      return "";
    }
    var coded: seq<Pair> := [];
    for n := 0 to |items|
      invariant coded == EncodedItems(items)[..n]
    {
      var k := PercentEncode(items[n].key);
      var v := PercentEncode(ValueOf(items[n].value));
      coded := coded + [Pair(k, v)];
    }
    assert coded == EncodedItems(items);
    return Join(Order.Sort(coded, PairLe));
  }
}
