/**
 Entity tags and If-None-Match. The server's tag is the 64-bit FNV-1a hash of the body, in
 hexadecimal. The grammar is the one of RFC 9110, sections 5.6.1 (lists), 8.8.3 (entity tags) and
 13.1.2 (If-None-Match); the code only cuts the field at its commas.
 */
module EntityTags {
  import opened Basics
  import opened Wrappers
  import opened Text
  import opened Numerals

  // ---- FNV-1a --------------------------------------------------------------------------------

  const MODULUS: nat := 0x1_0000_0000_0000_0000
  const OFFSET: nat := 14695981039346656037
  const PRIME: nat := 1099511628211

  /** The inverse of the prime: PRIME * INVERSE == 1 + WRAPS * MODULUS. */
  const INVERSE: nat := 14886173955864302971
  const WRAPS: nat := 887285111055

  type Word = n: nat | n < MODULUS

  function Power2(bits: nat): (p: nat)
    ensures p >= 1
  {
    if bits == 0 then 1 else 2 * Power2(bits - 1)
  }

  /** Bitwise exclusive or of the lowest `bits` bits. */
  function Xor(x: nat, y: nat, bits: nat): (r: nat)
    ensures r < Power2(bits)
  {
    if bits == 0 then 0 else 2 * Xor(x / 2, y / 2, bits - 1) + (x % 2 + y % 2) % 2
  }

  function Bit(x: nat, k: nat): nat {
    if k == 0 then x % 2 else Bit(x / 2, k - 1)
  }

  /** Each of the lowest bits of the result is set if it is set in one of the two and not in the other. */
  lemma {:induction false} XorIsBitwise(x: nat, y: nat, bits: nat, k: nat)
    requires k < bits
    ensures Bit(Xor(x, y, bits), k) == if Bit(x, k) != Bit(y, k) then 1 else 0
  {
    XorBit(x, y, bits);
    BitIsBit(x, k);
    BitIsBit(y, k);
    if k > 0 {
      XorIsBitwise(x / 2, y / 2, bits - 1, k - 1);
    }
  }

  lemma {:induction false} BitIsBit(x: nat, k: nat)
    ensures Bit(x, k) < 2
  {
    if k > 0 {
      BitIsBit(x / 2, k - 1);
    }
  }

  lemma XorBit(x: nat, y: nat, bits: nat)
    requires bits > 0
    ensures Xor(x, y, bits) / 2 == Xor(x / 2, y / 2, bits - 1)
    ensures Xor(x, y, bits) % 2 == (x % 2 + y % 2) % 2
  {
  }

  lemma {:induction false} XorTwice(x: nat, y: nat, bits: nat)
    requires x < Power2(bits)
    ensures Xor(Xor(x, y, bits), y, bits) == x
  {
    if bits > 0 {
      XorTwice(x / 2, y / 2, bits - 1);
      XorBit(x, y, bits);
      XorBit(Xor(x, y, bits), y, bits);
      BitAndRest(x, Xor(Xor(x, y, bits), y, bits), y % 2);
    }
  }

  lemma BitAndRest(x: nat, z: nat, bit: nat)
    requires bit < 2 && z / 2 == x / 2 && z % 2 == ((x % 2 + bit) % 2 + bit) % 2
    ensures z == x
  {
  }

  lemma {:induction false} XorSymmetric(x: nat, y: nat, bits: nat)
    ensures Xor(x, y, bits) == Xor(y, x, bits)
  {
    if bits > 0 {
      XorSymmetric(x / 2, y / 2, bits - 1);
    }
  }

  lemma XorInjective(x: nat, y: nat, b: nat)
    requires x < 256 && y < 256 && Xor(x, b, 8) == Xor(y, b, 8)
    ensures x == y
  {
    Power2Of8();
    XorTwice(x, b, 8);
    XorTwice(y, b, 8);
  }

  lemma Power2Of8()
    ensures Power2(8) == 256
  {
    assert Power2(4) == 16;
  }

  /** Exclusive or of a word with a byte; it changes the lowest eight bits only. */
  function XorByte(h: Word, b: Byte): (r: nat)
    ensures r < MODULUS
  {
    Power2Of8();
    h - h % 256 + Xor(h % 256, b, 8)
  }

  function Mix(h: Word, b: Byte): Word {
    XorByte(h, b) * PRIME % MODULUS
  }

  function HashFrom(h: Word, data: seq<Byte>): Word
    decreases |data|
  {
    if data == [] then h else HashFrom(Mix(h, data[0]), data[1..])
  }

  function Hash(data: seq<Byte>): Word {
    HashFrom(OFFSET, data)
  }

  lemma XorByteInjective(g: Word, h: Word, b: Byte, c: Byte)
    ensures XorByte(g, b) == XorByte(h, b) ==> g == h
    ensures XorByte(h, b) == XorByte(h, c) ==> b == c
  {
    Power2Of8();
    if XorByte(g, b) == XorByte(h, b) {
      HighPart(g, Xor(g % 256, b, 8), h, Xor(h % 256, b, 8));
      XorInjective(g % 256, h % 256, b);
    }
    if XorByte(h, b) == XorByte(h, c) {
      XorSymmetric(h % 256, b, 8);
      XorSymmetric(h % 256, c, 8);
      XorInjective(b, c, h % 256);
    }
  }

  lemma HighPart(g: nat, x: nat, h: nat, y: nat)
    requires x < 256 && y < 256 && g - g % 256 + x == h - h % 256 + y
    ensures x == y && g - g % 256 == h - h % 256
  {
  }

  /** Multiplying by the prime can be undone. */
  lemma Unmultiply(x: nat)
    requires x < MODULUS
    ensures x * PRIME % MODULUS * INVERSE % MODULUS == x
  {
    var q, r := x * PRIME / MODULUS, x * PRIME % MODULUS;
    assert x * PRIME == q * MODULUS + r;
    assert r * INVERSE == x + (x * WRAPS - q * INVERSE) * MODULUS;
    Residue(x, x * WRAPS - q * INVERSE);
  }

  lemma Residue(x: nat, z: int)
    requires x < MODULUS
    ensures (x + z * MODULUS) % MODULUS == x
  {
  }

  lemma MixInjective(g: Word, h: Word, b: Byte, c: Byte)
    ensures Mix(g, b) == Mix(h, b) ==> g == h
    ensures Mix(h, b) == Mix(h, c) ==> b == c
  {
    Unmultiply(XorByte(g, b));
    Unmultiply(XorByte(h, b));
    Unmultiply(XorByte(h, c));
    XorByteInjective(g, h, b, c);
  }

  /** A common suffix neither creates nor removes a difference. */
  lemma {:induction false} SuffixCancels(g: Word, h: Word, data: seq<Byte>)
    ensures HashFrom(g, data) == HashFrom(h, data) <==> g == h
    decreases |data|
  {
    if data != [] {
      SuffixCancels(Mix(g, data[0]), Mix(h, data[0]), data[1..]);
      MixInjective(g, h, data[0], data[0]);
    }
  }

  lemma {:induction false} HashAppend(h: Word, a: seq<Byte>, b: seq<Byte>)
    ensures HashFrom(h, a + b) == HashFrom(HashFrom(h, a), b)
    decreases |a|
  {
    if a == [] {
      assert a + b == b;
    } else {
      HashAppend(Mix(h, a[0]), a[1..], b);
      assert (a + b)[0] == a[0] && (a + b)[1..] == a[1..] + b;
    }
  }

  /** Bodies that differ in a single byte hash differently. */
  lemma OneByteChangesHash(a: seq<Byte>, b: seq<Byte>, i: nat)
    requires |a| == |b| && i < |a| && a[i] != b[i]
    requires forall j :: 0 <= j < |a| && j != i ==> a[j] == b[j]
    ensures Hash(a) != Hash(b)
  {
    var pre, post := a[..i], a[i + 1..];
    assert a == pre + ([a[i]] + post) && b == pre + ([b[i]] + post);
    var h := HashFrom(OFFSET, pre);
    HashAppend(OFFSET, pre, [a[i]] + post);
    HashAppend(OFFSET, pre, [b[i]] + post);
    assert ([a[i]] + post)[1..] == post && ([b[i]] + post)[1..] == post;
    MixInjective(h, h, a[i], b[i]);
    SuffixCancels(Mix(h, a[i]), Mix(h, b[i]), post);
  }

  lemma XorOfVector()
    ensures Xor(0x25, 0x61, 8) == 0x44
  {
    assert Xor(0x2, 0x6, 4) == 0x4 by {
      assert Xor(0, 1, 2) == 1;
    }
  }

  lemma ProductOfVector(x: nat)
    requires x == OFFSET - 0x25 + 0x44
    ensures x * PRIME % MODULUS == 0xaf63dc4c8601ec8c
  {
    assert x * PRIME == 875948729822 * MODULUS + 0xaf63dc4c8601ec8c;
    Residue(0xaf63dc4c8601ec8c, 875948729822);
  }

  lemma MixOfVector()
    ensures Mix(OFFSET, 97) == 0xaf63dc4c8601ec8c
  {
    XorOfVector();
    assert OFFSET % 256 == 0x25;
    ProductOfVector(XorByte(OFFSET, 97));
  }

  /** Two of the vectors published for FNV-1a: the empty body, and the letter a. */
  lemma PublishedVectors()
    ensures Hash([]) == 0xcbf29ce484222325
    ensures Hash([97]) == 0xaf63dc4c8601ec8c
  {
    MixOfVector();
    OneByte(OFFSET, 97);
  }

  lemma OneByte(h: Word, b: Byte)
    ensures HashFrom(h, [b]) == Mix(h, b)
  {
    assert [b][1..] == [];
  }

  // ---- entity tags ---------------------------------------------------------------------------

  datatype EntityTag = EntityTag(weak: bool, tag: string)

  /** etagc: printable ASCII except the quotation mark, and everything beyond ASCII. Commas are allowed. */
  predicate IsTagChar(c: char) {
    c == '!' || '#' <= c <= '~' || c >= '\U{0080}'
  }

  predicate ValidTag(t: EntityTag) {
    forall i :: 0 <= i < |t.tag| ==> IsTagChar(t.tag[i])
  }

  function Quoted(tag: string): string {
    "\"" + tag + "\""
  }

  function TagText(t: EntityTag): string {
    (if t.weak then "W/" else "") + Quoted(t.tag)
  }

  /** Weak comparison: equal opaque tags, whether weak or not. */
  predicate WeaklyEqual(a: EntityTag, b: EntityTag) {
    a.tag == b.tag
  }

  /** The tag of a body. */
  function TagOf(data: seq<Byte>): EntityTag {
    EntityTag(true, Print(Hash(data), 16))
  }

  /** Feeds the body into a running hash and prints it. */
  method WeakETag(data: seq<Byte>) returns (etag: string)
    ensures etag == TagText(TagOf(data)) == "W/\"" + Print(Hash(data), 16) + "\""
  {
    var h: Word := OFFSET;
    var i := 0;
    assert data[0..] == data;
    while i < |data|
      invariant 0 <= i <= |data|
      invariant HashFrom(h, data[i..]) == Hash(data)
    {
      assert data[i..][0] == data[i] && data[i..][1..] == data[i + 1..];
      h := Mix(h, data[i]);
      i := i + 1;
    }
    etag := "W/\"" + Print(h, 16) + "\"";
  }

  lemma TagOfIsCommaFree(data: seq<Byte>)
    ensures ValidTag(TagOf(data)) && ',' !in TagOf(data).tag
  {
    PrintHasNo(Hash(data), 16, ',');
  }

  /** Two bodies have the same tag exactly when they have the same hash. */
  lemma TagsAreHashes(a: seq<Byte>, b: seq<Byte>)
    ensures WeaklyEqual(TagOf(a), TagOf(b)) <==> Hash(a) == Hash(b)
  {
    if WeaklyEqual(TagOf(a), TagOf(b)) {
      PrintInjective(Hash(a), Hash(b), 16);
    }
  }

  // ---- If-None-Match -------------------------------------------------------------------------

  function TrimPrefix(s: string, prefix: string): string {
    if prefix <= s then s[|prefix|..] else s
  }

  function Strip(candidate: string): string {
    TrimPrefix(TrimSpace(candidate), "W/")
  }

  ghost predicate AnyStripsTo(pieces: seq<string>, want: string) {
    exists i :: 0 <= i < |pieces| && Strip(pieces[i]) == want
  }

  /** What the code accepts: a lone star, or a piece between commas that is the wanted tag. */
  ghost predicate Covers(ifNoneMatch: string, etag: string) {
    ifNoneMatch != "" &&
    (TrimSpace(ifNoneMatch) == "*" || AnyStripsTo(Split(ifNoneMatch, ','), TrimPrefix(etag, "W/")))
  }

  method MatchesETag(ifNoneMatch: string, etag: string) returns (matched: bool)
    ensures matched <==> Covers(ifNoneMatch, etag)
  {
    if ifNoneMatch == "" {
      return false;
    }
    if TrimSpace(ifNoneMatch) == "*" {
      return true;
    }
    matched := AnyCandidate(Split(ifNoneMatch, ','), TrimPrefix(etag, "W/"));
  }

  method AnyCandidate(candidates: seq<string>, want: string) returns (found: bool)
    ensures found <==> AnyStripsTo(candidates, want)
  {
    for i := 0 to |candidates|
      invariant forall j :: 0 <= j < i ==> Strip(candidates[j]) != want
    {
      var candidate := Strip(candidates[i]);
      if candidate == want {
        return true;
      }
    }
    return false;
  }

  // ---- the grammar ---------------------------------------------------------------------------

  /** A list element with the optional white space around it; elements may be empty. */
  datatype Item = Item(before: string, tag: Option<EntityTag>, after: string)

  predicate IsOws(s: string) {
    forall i :: 0 <= i < |s| ==> s[i] == ' ' || s[i] == '\t'
  }

  predicate ValidItem(x: Item) {
    IsOws(x.before) && IsOws(x.after) && (x.tag.Some? ==> ValidTag(x.tag.value))
  }

  function ItemText(x: Item): string {
    x.before + (if x.tag.Some? then TagText(x.tag.value) else "") + x.after
  }

  function ListText(items: seq<Item>): string
    requires |items| >= 1
  {
    if |items| == 1 then ItemText(items[0]) else ItemText(items[0]) + "," + ListText(items[1..])
  }

  predicate ValidItems(items: seq<Item>) {
    |items| >= 1 && forall i :: 0 <= i < |items| ==> ValidItem(items[i])
  }

  /** What section 13.1.2 asks: does one of the listed tags match weakly? */
  ghost predicate Listed(items: seq<Item>, own: EntityTag) {
    exists i :: 0 <= i < |items| && items[i].tag.Some? && WeaklyEqual(items[i].tag.value, own)
  }

  function Quotes(s: string): nat {
    if s == "" then 0 else (if s[0] == '"' then 1 else 0) + Quotes(s[1..])
  }

  lemma {:induction false} QuotesAppend(a: string, b: string)
    ensures Quotes(a + b) == Quotes(a) + Quotes(b)
  {
    if a == "" {
      assert a + b == b;
    } else {
      assert (a + b)[1..] == a[1..] + b;
      QuotesAppend(a[1..], b);
    }
  }

  lemma {:induction false} NoQuotes(s: string)
    requires forall i :: 0 <= i < |s| ==> s[i] != '"'
    ensures Quotes(s) == 0
  {
    if s != "" { NoQuotes(s[1..]); }
  }

  lemma QuotesOfPrefix(a: string, b: string, s: string)
    requires s == a + b
    ensures Quotes(a) <= Quotes(s) && Quotes(b) <= Quotes(s)
  {
    QuotesAppend(a, b);
  }

  lemma TrimAddsNoQuotes(s: string)
    ensures Quotes(TrimSpace(s)) <= Quotes(s)
  {
    TrimLeftKeepsQuotes(s);
    TrimRightKeepsQuotes(TrimLeft(s));
  }

  lemma TrimPrefixAddsNoQuotes(s: string, prefix: string)
    ensures Quotes(TrimPrefix(s, prefix)) <= Quotes(s)
  {
    if prefix <= s {
      QuotesOfPrefix(prefix, s[|prefix|..], s);
    }
  }

  lemma StripAddsNoQuotes(s: string)
    ensures Quotes(Strip(s)) <= Quotes(s)
  {
    TrimAddsNoQuotes(s);
    TrimPrefixAddsNoQuotes(TrimSpace(s), "W/");
  }

  lemma {:induction false} PiecesHaveFewQuotes(s: string)
    ensures forall i :: 0 <= i < |Split(s, ',')| ==> Quotes(Split(s, ',')[i]) <= Quotes(s)
  {
    if s != "" {
      PiecesHaveFewQuotes(s[1..]);
    }
  }

  lemma QuotedHasTwoQuotes(tag: string)
    ensures Quotes(Quoted(tag)) >= 2
  {
    QuotesAppend("\"" + tag, "\"");
    assert Quotes("\"") == 1;
    QuotesAppend("\"", tag);
  }

  /** Text with a single quotation mark yields no quoted piece. */
  lemma OneQuoteIsNoTag(s: string, tag: string)
    requires Quotes(s) <= 1
    ensures !AnyStripsTo(Split(s, ','), Quoted(tag))
  {
    var pieces := Split(s, ',');
    PiecesHaveFewQuotes(s);
    QuotedHasTwoQuotes(tag);
    forall i | 0 <= i < |pieces| ensures Strip(pieces[i]) != Quoted(tag) {
      StripAddsNoQuotes(pieces[i]);
    }
  }

  lemma AnyOfBoth(a: seq<string>, b: seq<string>, want: string)
    ensures AnyStripsTo(a + b, want) <==> AnyStripsTo(a, want) || AnyStripsTo(b, want)
  {
    if AnyStripsTo(a, want) {
      var i :| 0 <= i < |a| && Strip(a[i]) == want;
      assert (a + b)[i] == a[i];
    }
    if AnyStripsTo(b, want) {
      var i :| 0 <= i < |b| && Strip(b[i]) == want;
      assert (a + b)[|a| + i] == b[i];
    }
  }

  lemma OwsIsBlank(s: string)
    requires IsOws(s)
    ensures Blank(s) && ',' !in s && Quotes(s) == 0
  {
    NoQuotes(s);
  }

  /** A whole element, trimmed and stripped of its weakness mark, is its quoted tag. */
  lemma StripItem(x: Item)
    requires ValidItem(x) && x.tag.Some?
    ensures Strip(ItemText(x)) == Quoted(x.tag.value.tag)
  {
    var t := x.tag.value;
    OwsIsBlank(x.before);
    OwsIsBlank(x.after);
    TagTextIsTrimmed(t);
    TrimPadded(x.before, TagText(t), x.after);
    WantIsQuoted(t);
  }

  lemma TagTextIsTrimmed(t: EntityTag)
    ensures Trimmed(TagText(t))
  {
    assert TagText(t)[|TagText(t)| - 1] == '"';
    assert TagText(t)[0] == if t.weak then 'W' else '"';
  }

  lemma NoCommaInItem(x: Item)
    requires ValidItem(x) && (x.tag.Some? ==> ',' !in x.tag.value.tag)
    ensures ',' !in ItemText(x)
  {
    OwsIsBlank(x.before);
    OwsIsBlank(x.after);
    if x.tag.Some? {
      var w := if x.tag.value.weak then "W/" else "";
      assert ',' !in w;
      assert ',' !in Quoted(x.tag.value.tag);
    }
  }

  /** A tag with a comma inside falls apart, and none of the parts has both quotation marks. */
  lemma CommaTagIsNeverMatched(x: Item, tag: string)
    requires ValidItem(x) && x.tag.Some? && ',' in x.tag.value.tag
    ensures !AnyStripsTo(Split(ItemText(x), ','), Quoted(tag))
  {
    var t := x.tag.value;
    var c :| 0 <= c < |t.tag| && t.tag[c] == ',';
    var w := if t.weak then "W/" else "";
    HalfTags(x, w, t.tag[..c], t.tag[c + 1..]);
    CutInTwo(x, c);
    HalvesAreNoTags(x.before + w + "\"" + t.tag[..c], t.tag[c + 1..] + "\"" + x.after, tag);
  }

  lemma CutInTwo(x: Item, c: nat)
    requires x.tag.Some? && c < |x.tag.value.tag| && x.tag.value.tag[c] == ','
    ensures var t := x.tag.value;
            var w := if t.weak then "W/" else "";
            ItemText(x) == (x.before + w + "\"" + t.tag[..c]) + [','] + (t.tag[c + 1..] + "\"" + x.after)
  {
    var t := x.tag.value;
    assert t.tag == t.tag[..c] + [','] + t.tag[c + 1..];
    Regroup(x.before, if t.weak then "W/" else "", t.tag[..c], t.tag[c + 1..], x.after);
  }

  lemma Regroup(before: string, w: string, a: string, b: string, after: string)
    ensures before + (w + Quoted(a + [','] + b)) + after ==
            (before + w + "\"" + a) + [','] + (b + "\"" + after)
  {
    var q := "\"";
    var l, r := q + a, b + q;
    assert q + (a + [','] + b) + q == l + [','] + r;
    assert w + (l + [','] + r) == (w + l) + [','] + r;
    assert before + ((w + l) + [','] + r) == (before + (w + l)) + [','] + r;
    assert (before + (w + l)) + [','] + r + after == (before + (w + l)) + [','] + (r + after);
    assert before + (w + l) == before + w + q + a;
    assert r + after == b + q + after;
  }

  lemma HalvesAreNoTags(left: string, right: string, tag: string)
    requires Quotes(left) <= 1 && Quotes(right) <= 1
    ensures !AnyStripsTo(Split(left + [','] + right, ','), Quoted(tag))
  {
    SplitAppend(left, ',', right);
    OneQuoteIsNoTag(left, tag);
    OneQuoteIsNoTag(right, tag);
    AnyOfBoth(Split(left, ','), Split(right, ','), Quoted(tag));
  }

  lemma HalfTags(x: Item, w: string, a: string, b: string)
    requires IsOws(x.before) && IsOws(x.after) && (w == "" || w == "W/")
    requires forall i :: 0 <= i < |a| ==> a[i] != '"'
    requires forall i :: 0 <= i < |b| ==> b[i] != '"'
    ensures Quotes(x.before + w + "\"" + a) == 1 && Quotes(b + "\"" + x.after) == 1
  {
    OwsIsBlank(x.before);
    OwsIsBlank(x.after);
    NoQuotes(a);
    NoQuotes(b);
    NoQuotes(w);
    QuotesOfThree(x.before + w, a);
    QuotesAppend(x.before, w);
    QuotesOfThree(b, x.after);
  }

  lemma QuotesOfThree(a: string, b: string)
    ensures Quotes(a + "\"" + b) == Quotes(a) + 1 + Quotes(b)
  {
    assert Quotes("\"") == 1;
    QuotesAppend(a, "\"");
    QuotesAppend(a + "\"", b);
  }

  lemma EmptyItemStripsToNothing(x: Item)
    requires ValidItem(x) && x.tag.None?
    ensures Strip(ItemText(x)) == ""
  {
    OwsIsBlank(x.before);
    OwsIsBlank(x.after);
    assert x.before + "" + x.after == ItemText(x);
    TrimPadded(x.before, "", x.after);
  }

  lemma QuotedInjective(s: string, t: string)
    ensures Quoted(s) == Quoted(t) <==> s == t
    ensures Quoted(s) != ""
  {
    assert Quoted(s)[1..|s| + 1] == s && Quoted(t)[1..|t| + 1] == t;
  }

  lemma OnePiece(piece: string, want: string)
    ensures AnyStripsTo([piece], want) <==> Strip(piece) == want
  {
    if Strip(piece) == want {
      assert [piece][0] == piece;
    }
  }

  lemma ItemMatches(x: Item, own: EntityTag)
    requires ValidItem(x) && ',' !in own.tag
    ensures AnyStripsTo(Split(ItemText(x), ','), Quoted(own.tag)) <==>
            x.tag.Some? && WeaklyEqual(x.tag.value, own)
  {
    if x.tag.Some? && ',' in x.tag.value.tag {
      CommaTagIsNeverMatched(x, own.tag);
    } else {
      NoCommaInItem(x);
      SplitWhole(ItemText(x), ',');
      OnePiece(ItemText(x), Quoted(own.tag));
      if x.tag.Some? {
        StripItem(x);
        QuotedInjective(x.tag.value.tag, own.tag);
      } else {
        EmptyItemStripsToNothing(x);
        QuotedInjective(own.tag, own.tag);
      }
    }
  }

  lemma {:induction false} ListMatches(items: seq<Item>, own: EntityTag)
    requires ValidItems(items) && ',' !in own.tag
    ensures AnyStripsTo(Split(ListText(items), ','), Quoted(own.tag)) <==> Listed(items, own)
    decreases |items|
  {
    ItemMatches(items[0], own);
    if |items| > 1 {
      ListMatches(items[1..], own);
      SplitAppend(ItemText(items[0]), ',', ListText(items[1..]));
      AnyOfBoth(Split(ItemText(items[0]), ','), Split(ListText(items[1..]), ','), Quoted(own.tag));
      assert forall i :: 0 < i < |items| ==> items[i] == items[1..][i - 1];
      assert forall i :: 0 <= i < |items| - 1 ==> items[1..][i] == items[i + 1];
    }
  }

  lemma WantIsQuoted(own: EntityTag)
    ensures TrimPrefix(TagText(own), "W/") == Quoted(own.tag)
  {
    if own.weak {
      assert "W/" <= TagText(own) && TagText(own)[2..] == Quoted(own.tag);
    } else {
      assert TagText(own)[0] == '"';
    }
  }

  lemma {:induction false} TrimLeftKeepsQuotes(s: string)
    ensures Quotes(TrimLeft(s)) == Quotes(s)
  {
    if s != "" && IsSpace(s[0]) {
      TrimLeftKeepsQuotes(s[1..]);
    }
  }

  lemma {:induction false} TrimRightKeepsQuotes(s: string)
    ensures Quotes(TrimRight(s)) == Quotes(s)
  {
    if s != "" && IsSpace(s[|s| - 1]) {
      TrimRightKeepsQuotes(s[..|s| - 1]);
      QuotesAppend(s[..|s| - 1], [s[|s| - 1]]);
      assert s == s[..|s| - 1] + [s[|s| - 1]];
      assert [s[|s| - 1]][1..] == "";
    }
  }

  lemma ItemHasQuotesOrNoStar(x: Item)
    requires ValidItem(x)
    ensures Quotes(ItemText(x)) >= 2 || '*' !in ItemText(x)
  {
    if x.tag.Some? {
      var t := x.tag.value;
      var w := if t.weak then "W/" else "";
      QuotedHasTwoQuotes(t.tag);
      QuotesAppend(w, Quoted(t.tag));
      QuotesAppend(x.before, TagText(t));
      QuotesAppend(x.before + TagText(t), x.after);
    }
  }

  lemma {:induction false} ListHasQuotesOrNoStar(items: seq<Item>)
    requires ValidItems(items)
    ensures Quotes(ListText(items)) >= 2 || '*' !in ListText(items)
    decreases |items|
  {
    ItemHasQuotesOrNoStar(items[0]);
    if |items| > 1 {
      ListHasQuotesOrNoStar(items[1..]);
      QuotesAppend(ItemText(items[0]) + ",", ListText(items[1..]));
      QuotesAppend(ItemText(items[0]), ",");
    }
  }

  lemma TrimmedStarOccurs(s: string)
    requires TrimSpace(s) == "*"
    ensures '*' in s
  {
    var left := TrimLeft(s);
    assert left[0] == TrimRight(left)[0];
    assert left[0] == s[|s| - |left|];
  }

  /** A list of tags is never taken for a lone star. */
  lemma ListIsNoStar(items: seq<Item>)
    requires ValidItems(items)
    ensures TrimSpace(ListText(items)) != "*"
  {
    var text := ListText(items);
    ListHasQuotesOrNoStar(items);
    TrimLeftKeepsQuotes(text);
    TrimRightKeepsQuotes(TrimLeft(text));
    assert Quotes("*") == 0;
    if TrimSpace(text) == "*" {
      TrimmedStarOccurs(text);
    }
  }

  /**
   Cutting at commas decides If-None-Match as section 13.1.2 does, for every well-formed list, if and
   only if the server's own tag has no comma. Tags of other origin may contain commas.
   */
  lemma CommaSplitIsExact(own: EntityTag)
    requires ValidTag(own)
    ensures (forall items :: ValidItems(items) ==> (Covers(ListText(items), TagText(own)) <==> Listed(items, own)))
            <==> ',' !in own.tag
  {
    WantIsQuoted(own);
    if ',' !in own.tag {
      forall items | ValidItems(items) ensures Covers(ListText(items), TagText(own)) <==> Listed(items, own) {
        ListDecided(items, own);
      }
    } else {
      var alone := [Item("", Some(own), "")];
      assert ListText(alone) == TagText(own) by {
        assert "" + TagText(own) + "" == TagText(own);
      }
      ListIsNoStar(alone);
      CommaTagIsNeverMatched(alone[0], own.tag);
      assert Listed(alone, own) by { assert alone[0].tag.Some?; }
      assert ValidItems(alone) && !Covers(ListText(alone), TagText(own));
    }
  }

  /** The direction the server relies on. */
  lemma ListDecided(items: seq<Item>, own: EntityTag)
    requires ValidItems(items) && ',' !in own.tag
    ensures Covers(ListText(items), TagText(own)) <==> Listed(items, own)
  {
    WantIsQuoted(own);
    ListIsNoStar(items);
    ListMatches(items, own);
    NothingInEmptyField(own);
  }

  lemma NothingInEmptyField(own: EntityTag)
    ensures !AnyStripsTo(Split("", ','), Quoted(own.tag))
  {
    SplitWhole("", ',');
    OnePiece("", Quoted(own.tag));
  }

  /** The other form of the field, a lone star, covers every tag, with any white space around it. */
  lemma StarCoversAll(before: string, after: string, own: EntityTag)
    requires IsOws(before) && IsOws(after)
    ensures Covers(before + "*" + after, TagText(own))
  {
    OwsIsBlank(before);
    OwsIsBlank(after);
    TrimPadded(before, "*", after);
  }
}
