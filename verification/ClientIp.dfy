/**
 The client address behind trusted reverse proxies, from X-Forwarded-For. Whatever header lines
 the client sent, the hop counted from the right is the one that the outermost proxy appended.
 */
module ClientIp {
  import opened Text

  function FlatMap<A, B>(f: A -> seq<B>, items: seq<A>): seq<B> {
    if items == [] then [] else f(items[0]) + FlatMap(f, items[1..])
  }

  /** The trimmed piece, if anything is left of it. */
  function HopOf(piece: string): seq<string> {
    if TrimSpace(piece) != "" then [TrimSpace(piece)] else []
  }

  function HopsOf(header: string): seq<string> {
    FlatMap(HopOf, Split(header, ','))
  }

  /** All hops of all X-Forwarded-For lines, in order. */
  function Hops(headers: seq<string>): seq<string> {
    FlatMap(HopsOf, headers)
  }

  /** The hop counted from the right, or the leftmost one of a chain that is too short. */
  function TrustedHop(hops: seq<string>, count: nat): string
    requires hops != [] && count > 0
  {
    if |hops| < count then hops[0] else hops[|hops| - count]
  }

  /** The inner loop, over the pieces of one header line. */
  method AppendHops(hops: seq<string>, pieces: seq<string>) returns (longer: seq<string>)
    ensures longer == hops + FlatMap(HopOf, pieces)
  {
    longer := hops;
    for j := 0 to |pieces|
      invariant longer == hops + FlatMap(HopOf, pieces[..j])
    {
      var hop := TrimSpace(pieces[j]);
      FlatMapOneMore(HopOf, pieces, j);
      Associate(hops, FlatMap(HopOf, pieces[..j]), HopOf(pieces[j]));
      if hop != "" {
        longer := longer + [hop];
      }
    }
    assert pieces[..|pieces|] == pieces;
  }

  /** Flattens all header lines into one list of hops. */
  method Flatten(headers: seq<string>) returns (hops: seq<string>)
    ensures hops == Hops(headers)
  {
    hops := [];
    for i := 0 to |headers|
      invariant hops == FlatMap(HopsOf, headers[..i])
    {
      hops := AppendHops(hops, Split(headers[i], ','));
      FlatMapOneMore(HopsOf, headers, i);
    }
    assert headers[..|headers|] == headers;
  }

  /** The trusted hop, if there is one and it is an address. */
  function TrustedOf(hops: seq<string>, trustedProxyCount: int, isIP: string -> bool): string {
    if trustedProxyCount <= 0 || hops == [] then ""
    else if isIP(TrustedHop(hops, trustedProxyCount)) then TrustedHop(hops, trustedProxyCount)
    else ""
  }

  function Trusted(headers: seq<string>, trustedProxyCount: int, isIP: string -> bool): string {
    TrustedOf(Hops(headers), trustedProxyCount, isIP)
  }

  /** Counts the trusted proxies from the right. */
  method Select(hops: seq<string>, trustedProxyCount: int, isIP: string -> bool) returns (ip: string)
    requires trustedProxyCount > 0
    ensures ip == TrustedOf(hops, trustedProxyCount, isIP)
  {
    if |hops| == 0 {
      return "";
    }
    var idx := |hops| - trustedProxyCount;
    if idx < 0 {
      idx := 0;
    }
    if !isIP(hops[idx]) {
      return "";
    }
    return hops[idx];
  }

  /**
   Without trusted proxies, and without hops, there is nothing to use. Otherwise it is the hop that many from
   the right, or the leftmost of fewer, if that is an address.
   */
  method ForwardedFor(headers: seq<string>, trustedProxyCount: int, isIP: string -> bool) returns (ip: string)
    ensures ip == Trusted(headers, trustedProxyCount, isIP)
    ensures trustedProxyCount <= 0 ==> ip == ""
    ensures trustedProxyCount > 0 && Hops(headers) == [] ==> ip == ""
    ensures trustedProxyCount > 0 && Hops(headers) != [] ==>
              var hops := Hops(headers);
              var hop := hops[if |hops| <= trustedProxyCount then 0 else |hops| - trustedProxyCount];
              ip == if isIP(hop) then hop else ""
  {
    if trustedProxyCount <= 0 {
      return "";
    }
    var hops := Flatten(headers);
    ip := Select(hops, trustedProxyCount, isIP);
  }

  /** The part of the request that the middleware sees. */
  class Request {
    const forwardedFor: seq<string>
    var remoteAddr: string

    constructor (forwardedFor: seq<string>, peer: string)
      ensures this.forwardedFor == forwardedFor && remoteAddr == peer
    {
      this.forwardedFor := forwardedFor;
      remoteAddr := peer;
    }

    /** The address stays that of the TCP peer unless there is a trusted hop that is an address. */
    method RewriteRemoteAddr(trustedProxyCount: int, isIP: string -> bool)
      modifies this
      ensures var ip := Trusted(forwardedFor, trustedProxyCount, isIP);
              remoteAddr == if ip != "" then ip else old(remoteAddr)
      ensures trustedProxyCount <= 0 ==> remoteAddr == old(remoteAddr)
    {
      var ip := ForwardedFor(forwardedFor, trustedProxyCount, isIP);
      if ip != "" {
        remoteAddr := ip;
      }
    }
  }

  // ---- hops of concatenations ----------------------------------------------------------------

  lemma {:induction false} FlatMapAppend<A, B>(f: A -> seq<B>, a: seq<A>, b: seq<A>)
    ensures FlatMap(f, a + b) == FlatMap(f, a) + FlatMap(f, b)
  {
    if a == [] {
      assert a + b == b;
    } else {
      assert (a + b)[1..] == a[1..] + b;
      FlatMapAppend(f, a[1..], b);
    }
  }

  lemma FlatMapOne<A, B>(f: A -> seq<B>, x: A)
    ensures FlatMap(f, [x]) == f(x)
  {
    assert [x][1..] == [];
  }

  lemma FlatMapOneMore<A, B>(f: A -> seq<B>, items: seq<A>, i: nat)
    requires i < |items|
    ensures FlatMap(f, items[..i + 1]) == FlatMap(f, items[..i]) + f(items[i])
  {
    assert items[..i + 1] == items[..i] + [items[i]];
    FlatMapAppend(f, items[..i], [items[i]]);
    FlatMapOne(f, items[i]);
  }

  /** What a proxy appends: not empty, without white space around it and without commas. */
  predicate Address(s: string) {
    s != "" && Trimmed(s) && ',' !in s
  }

  lemma HopsAtComma(a: string, b: string)
    ensures HopsOf(a + [','] + b) == HopsOf(a) + HopsOf(b)
  {
    SplitAppend(a, ',', b);
    FlatMapAppend(HopOf, Split(a, ','), Split(b, ','));
  }

  lemma PaddedAddress(before: string, addr: string, after: string)
    requires Blank(before) && Blank(after) && Address(addr)
    ensures HopsOf(before + addr + after) == [addr]
  {
    var text := before + addr + after;
    SplitWhole(text, ',');
    TrimPadded(before, addr, after);
    FlatMapOne(HopOf, text);
  }

  /** Blanks in front of a header line do not matter. */
  lemma LeadingBlanks(gap: string, header: string)
    requires Blank(gap)
    ensures HopsOf(gap + header) == HopsOf(header)
  {
    SplitPrefix(gap, header);
    var pieces := Split(header, ',');
    SameHop(gap, pieces[0]);
    SameHead(HopOf, gap + pieces[0], pieces);
  }

  lemma {:induction false} SplitPrefix(prefix: string, text: string)
    requires forall i :: 0 <= i < |prefix| ==> prefix[i] != ','
    ensures Split(prefix + text, ',') == [prefix + Split(text, ',')[0]] + Split(text, ',')[1..]
    decreases |prefix|
  {
    var rest := Split(text, ',');
    if prefix == "" {
      assert prefix + text == text && prefix + rest[0] == rest[0];
    } else {
      SplitPrefix(prefix[1..], text);
      SplitCons(prefix[0], prefix[1..] + text, ',');
      HeadFirst(prefix, text);
      HeadFirst(prefix, rest[0]);
    }
  }

  lemma HeadFirst(a: string, b: string)
    requires a != ""
    ensures [a[0]] + (a[1..] + b) == a + b
  {
  }

  lemma SameHop(gap: string, piece: string)
    requires Blank(gap)
    ensures HopOf(gap + piece) == HopOf(piece)
  {
    TrimLeftPadded(gap, piece);
  }

  lemma SameHead<A, B>(f: A -> seq<B>, x: A, items: seq<A>)
    requires items != [] && f(x) == f(items[0])
    ensures FlatMap(f, [x] + items[1..]) == FlatMap(f, items)
  {
    assert ([x] + items[1..])[1..] == items[1..];
  }

  lemma HopsOfOne(header: string)
    ensures Hops([header]) == HopsOf(header)
  {
    FlatMapOne(HopsOf, header);
  }

  lemma HopsStep(headers: seq<string>)
    requires headers != []
    ensures Hops(headers) == HopsOf(headers[0]) + Hops(headers[1..])
  {
  }

  lemma JoinStep(headers: seq<string>, gap: string)
    requires |headers| > 1
    ensures Join(headers, [','] + gap) == headers[0] + [','] + (gap + Join(headers[1..], [','] + gap))
  {
  }

  lemma {:induction false} HopsOfJoined(headers: seq<string>, gap: string)
    requires headers != [] && Blank(gap)
    ensures HopsOf(Join(headers, [','] + gap)) == Hops(headers)
    decreases |headers|
  {
    if |headers| == 1 {
      assert headers == [headers[0]];
      HopsOfOne(headers[0]);
    } else {
      var rest := Join(headers[1..], [','] + gap);
      HopsOfJoined(headers[1..], gap);
      JoinStep(headers, gap);
      HopsAtComma(headers[0], gap + rest);
      LeadingBlanks(gap, rest);
      HopsStep(headers);
    }
  }

  // ---- proxies -------------------------------------------------------------------------------

  /** How a proxy adds the address it saw: in a line of its own, in the last line, or after joining all lines. */
  datatype Proxy =
    | NewLine(before: string, after: string)
    | LastLine(before: string, after: string)
    | OneLine(gap: string)
  {
    predicate Blanks() {
      match this
      case NewLine(before, after) => Blank(before) && Blank(after)
      case LastLine(before, after) => Blank(before) && Blank(after)
      case OneLine(gap) => Blank(gap)
    }

    function Forward(headers: seq<string>, addr: string): seq<string> {
      match this
      case NewLine(before, after) => headers + [before + addr + after]
      case LastLine(before, after) =>
        if headers == [] then [before + addr + after]
        else headers[..|headers| - 1] + [headers[|headers| - 1] + [','] + (before + addr + after)]
      case OneLine(gap) =>
        if headers == [] then [addr] else [Join(headers, [','] + gap) + [','] + (gap + addr)]
    }
  }

  lemma BareAddress(gap: string, addr: string)
    requires Blank(gap) && Address(addr)
    ensures HopsOf(gap + addr) == [addr] && HopsOf(addr) == [addr]
  {
    assert gap + addr + "" == gap + addr && "" + addr + "" == addr;
    PaddedAddress(gap, addr, "");
    PaddedAddress("", addr, "");
  }

  lemma Associate(a: seq<string>, b: seq<string>, c: seq<string>)
    ensures a + (b + c) == a + b + c
  {
  }

  /** The last item grows by something that adds `more`. */
  lemma LastItemGrows<A>(f: A -> seq<string>, items: seq<A>, longer: A, more: seq<string>)
    requires items != [] && f(longer) == f(items[|items| - 1]) + more
    ensures FlatMap(f, items[..|items| - 1] + [longer]) == FlatMap(f, items) + more
  {
    var init, last := items[..|items| - 1], items[|items| - 1];
    assert items == init + [last];
    FlatMapAppend(f, init, [last]);
    FlatMapOne(f, last);
    FlatMapAppend(f, init, [longer]);
    FlatMapOne(f, longer);
    Associate(FlatMap(f, init), f(last), more);
  }

  lemma OneMoreItem<A>(f: A -> seq<string>, items: seq<A>, item: A)
    ensures FlatMap(f, items + [item]) == FlatMap(f, items) + f(item)
  {
    FlatMapAppend(f, items, [item]);
    FlatMapOne(f, item);
  }

  lemma JoinedLines(headers: seq<string>, gap: string, text: string)
    requires headers != [] && Blank(gap)
    ensures HopsOf(Join(headers, [','] + gap) + [','] + text) == Hops(headers) + HopsOf(text)
  {
    HopsOfJoined(headers, gap);
    HopsAtComma(Join(headers, [','] + gap), text);
  }

  lemma NewLineAddsAHop(headers: seq<string>, before: string, addr: string, after: string)
    requires Blank(before) && Blank(after) && Address(addr)
    ensures Hops(NewLine(before, after).Forward(headers, addr)) == Hops(headers) + [addr]
  {
    PaddedAddress(before, addr, after);
    OneMoreItem(HopsOf, headers, before + addr + after);
  }

  lemma FirstLineAddsAHop(line: string, addr: string)
    requires HopsOf(line) == [addr]
    ensures Hops([line]) == Hops([]) + [addr]
  {
    HopsOfOne(line);
  }

  lemma LongerLineAddsAHop(headers: seq<string>, text: string, addr: string)
    requires headers != [] && HopsOf(text) == [addr]
    ensures Hops(headers[..|headers| - 1] + [headers[|headers| - 1] + [','] + text]) == Hops(headers) + [addr]
  {
    HopsAtComma(headers[|headers| - 1], text);
    LastItemGrows(HopsOf, headers, headers[|headers| - 1] + [','] + text, [addr]);
  }

  lemma LastLineAddsAHop(headers: seq<string>, before: string, addr: string, after: string)
    requires Blank(before) && Blank(after) && Address(addr)
    ensures Hops(LastLine(before, after).Forward(headers, addr)) == Hops(headers) + [addr]
  {
    PaddedAddress(before, addr, after);
    if headers == [] {
      FirstLineAddsAHop(before + addr + after, addr);
    } else {
      LongerLineAddsAHop(headers, before + addr + after, addr);
    }
  }

  lemma OneLineAddsAHop(headers: seq<string>, gap: string, addr: string)
    requires Blank(gap) && Address(addr)
    ensures Hops(OneLine(gap).Forward(headers, addr)) == Hops(headers) + [addr]
  {
    BareAddress(gap, addr);
    if headers == [] {
      FirstLineAddsAHop(addr, addr);
    } else {
      JoinedLines(headers, gap, gap + addr);
      HopsOfOne(Join(headers, [','] + gap) + [','] + (gap + addr));
    }
  }

  /** Each proxy adds exactly one hop at the end. */
  lemma ForwardAddsAHop(proxy: Proxy, headers: seq<string>, addr: string)
    requires proxy.Blanks() && Address(addr)
    ensures Hops(proxy.Forward(headers, addr)) == Hops(headers) + [addr]
  {
    match proxy
    case NewLine(before, after) => NewLineAddsAHop(headers, before, addr, after);
    case LastLine(before, after) => LastLineAddsAHop(headers, before, addr, after);
    case OneLine(gap) => OneLineAddsAHop(headers, gap, addr);
  }

  /** The header lines after a chain of proxies, the outermost one first. */
  function Forwarded(headers: seq<string>, proxies: seq<Proxy>, addrs: seq<string>): seq<string>
    requires |proxies| == |addrs|
    decreases |proxies|
  {
    if proxies == [] then headers
    else Forwarded(proxies[0].Forward(headers, addrs[0]), proxies[1..], addrs[1..])
  }

  ghost predicate Chain(proxies: seq<Proxy>, addrs: seq<string>) {
    && |proxies| == |addrs|
    && (forall i :: 0 <= i < |proxies| ==> proxies[i].Blanks())
    && (forall i :: 0 <= i < |addrs| ==> Address(addrs[i]))
  }

  lemma ChainRest(proxies: seq<Proxy>, addrs: seq<string>)
    requires Chain(proxies, addrs) && proxies != []
    ensures Chain(proxies[1..], addrs[1..]) && addrs == [addrs[0]] + addrs[1..]
  {
  }

  /** The client's hops come first, whatever they are, and then one per proxy. */
  lemma {:induction false} ChainAddsHops(headers: seq<string>, proxies: seq<Proxy>, addrs: seq<string>)
    requires Chain(proxies, addrs)
    ensures Hops(Forwarded(headers, proxies, addrs)) == Hops(headers) + addrs
    decreases |proxies|
  {
    if proxies == [] {
      assert Hops(headers) + addrs == Hops(headers);
    } else {
      var next := proxies[0].Forward(headers, addrs[0]);
      ForwardAddsAHop(proxies[0], headers, addrs[0]);
      ChainRest(proxies, addrs);
      ChainAddsHops(next, proxies[1..], addrs[1..]);
      Regroup(Hops(headers), addrs);
    }
  }

  lemma Regroup(a: seq<string>, b: seq<string>)
    requires b != []
    ensures a + [b[0]] + b[1..] == a + b
  {
  }

  // ---- what is taken -------------------------------------------------------------------------

  /** Every hop is something that a proxy could have appended. */
  lemma {:induction false} PiecesAreAddresses(pieces: seq<string>)
    requires forall i :: 0 <= i < |pieces| ==> ',' !in pieces[i]
    ensures forall hop :: hop in FlatMap(HopOf, pieces) ==> Address(hop)
  {
    if pieces != [] {
      TrimmedPiece(pieces[0]);
      PiecesAreAddresses(pieces[1..]);
    }
  }

  lemma TrimmedPiece(piece: string)
    requires ',' !in piece
    ensures Trimmed(TrimSpace(piece)) && ',' !in TrimSpace(piece)
  {
    var left := TrimLeft(piece);
    var core := TrimRight(left);
    assert core == left[..|core|] && left == piece[|piece| - |left|..];
  }

  lemma {:induction false} HopsAreAddresses(headers: seq<string>)
    ensures forall hop :: hop in Hops(headers) ==> Address(hop)
  {
    if headers != [] {
      PiecesHaveNoSeparator(headers[0], ',');
      PiecesAreAddresses(Split(headers[0], ','));
      HopsAreAddresses(headers[1..]);
    }
  }

  lemma TakenIsAHop(hops: seq<string>, count: int, isIP: string -> bool)
    ensures count <= 0 ==> TrustedOf(hops, count, isIP) == ""
    ensures TrustedOf(hops, count, isIP) == ""
            || (TrustedOf(hops, count, isIP) in hops && isIP(TrustedOf(hops, count, isIP)))
  {
  }

  /** With no proxy trusted, nothing is ever taken, whatever comes in; and what is taken is one of the hops. */
  lemma NoneTrustedNoneTaken(headers: seq<string>, count: int, isIP: string -> bool)
    ensures count <= 0 ==> Trusted(headers, count, isIP) == ""
    ensures var ip := Trusted(headers, count, isIP); ip == "" || (isIP(ip) && Address(ip) && ip in Hops(headers))
  {
    TakenIsAHop(Hops(headers), count, isIP);
    HopsAreAddresses(headers);
  }

  /**
   With at least as many proxies in the chain as are trusted, the chosen hop is the one that the
   outermost trusted proxy appended, whatever the client sent. Only a chain shorter than configured
   reaches back to the hops before it, and to the leftmost one if those are too few as well.
   */
  lemma OutermostTrustedHop(headers: seq<string>, proxies: seq<Proxy>, addrs: seq<string>, count: nat)
    requires Chain(proxies, addrs) && addrs != [] && count > 0
    ensures var hops := Hops(Forwarded(headers, proxies, addrs));
            hops != [] && TrustedHop(hops, count) == Chosen(Hops(headers), addrs, count)
  {
    ChainAddsHops(headers, proxies, addrs);
    HopFromTheRight(Hops(headers), addrs, count);
  }

  function Chosen(client: seq<string>, addrs: seq<string>, count: nat): string
    requires addrs != [] && count > 0
  {
    if count <= |addrs| then addrs[|addrs| - count]
    else if count - |addrs| <= |client| then client[|client| - (count - |addrs|)]
    else if client != [] then client[0]
    else addrs[0]
  }

  lemma HopFromTheRight(client: seq<string>, addrs: seq<string>, count: nat)
    requires addrs != [] && count > 0
    ensures TrustedHop(client + addrs, count) == Chosen(client, addrs, count)
  {
  }

  /** What the service takes for the client's address after the chain, for given lines from the client. */
  function TakenFor(headers: seq<string>, proxies: seq<Proxy>, addrs: seq<string>, count: int,
                    isIP: string -> bool): string
    requires |proxies| == |addrs|
  {
    Trusted(Forwarded(headers, proxies, addrs), count, isIP)
  }

  lemma TakenIsChosen(headers: seq<string>, proxies: seq<Proxy>, addrs: seq<string>, count: nat, isIP: string -> bool)
    requires Chain(proxies, addrs) && addrs != [] && count > 0
    ensures TakenFor(headers, proxies, addrs, count, isIP) ==
            var hop := Chosen(Hops(headers), addrs, count); if isIP(hop) then hop else ""
  {
    OutermostTrustedHop(headers, proxies, addrs, count);
  }

  ghost predicate Independent(proxies: seq<Proxy>, addrs: seq<string>, count: int, isIP: string -> bool)
    requires |proxies| == |addrs|
  {
    forall headers :: TakenFor(headers, proxies, addrs, count, isIP) == TakenFor([], proxies, addrs, count, isIP)
  }

  lemma LongChain(headers: seq<string>, proxies: seq<Proxy>, addrs: seq<string>, count: int, isIP: string -> bool)
    requires Chain(proxies, addrs) && count <= |addrs|
    ensures TakenFor(headers, proxies, addrs, count, isIP) == TakenFor([], proxies, addrs, count, isIP)
  {
    if count > 0 {
      TakenIsChosen(headers, proxies, addrs, count, isIP);
      TakenIsChosen([], proxies, addrs, count, isIP);
    }
  }

  lemma SentIsTaken(sent: string, proxies: seq<Proxy>, addrs: seq<string>, count: nat, isIP: string -> bool)
    requires Chain(proxies, addrs) && Address(sent) && count > |addrs|
    ensures TakenFor([sent], proxies, addrs, count, isIP) == if isIP(sent) then sent else ""
  {
    ChainAddsHops([sent], proxies, addrs);
    SentHop(sent);
    SentIsLeftmost(sent, addrs, count);
  }

  lemma SentIsLeftmost(sent: string, addrs: seq<string>, count: nat)
    requires count > |addrs|
    ensures TrustedHop([sent] + addrs, count) == sent
  {
  }

  lemma NothingSent(proxies: seq<Proxy>, addrs: seq<string>, count: nat, isIP: string -> bool)
    requires Chain(proxies, addrs) && count > |addrs|
    ensures TakenFor([], proxies, addrs, count, isIP) == if addrs != [] && isIP(addrs[0]) then addrs[0] else ""
  {
    ChainAddsHops([], proxies, addrs);
    assert Hops([]) + addrs == addrs;
  }

  /** On a chain shorter than configured a client is taken for the address it sends, or for none. */
  lemma ShortChain(proxies: seq<Proxy>, addrs: seq<string>, count: nat, isIP: string -> bool, valid: string)
    returns (headers: seq<string>)
    requires Chain(proxies, addrs) && Address(valid) && isIP(valid) && count > |addrs|
    ensures TakenFor(headers, proxies, addrs, count, isIP) != TakenFor([], proxies, addrs, count, isIP)
  {
    var sent := if addrs != [] && addrs[0] == valid then Other(valid) else valid;
    headers := [sent];
    SentIsTaken(sent, proxies, addrs, count, isIP);
    NothingSent(proxies, addrs, count, isIP);
  }

  /**
   If anything at all passes for an address, the result is independent of what the client sent exactly when
   no fewer proxies append than are trusted. So it is for a server that trusts none.
   */
  lemma IndependentOfTheClient(proxies: seq<Proxy>, addrs: seq<string>, count: int, isIP: string -> bool, valid: string)
    requires Chain(proxies, addrs) && Address(valid) && isIP(valid)
    ensures Independent(proxies, addrs, count, isIP) <==> count <= |addrs|
  {
    if count <= |addrs| {
      forall headers
        ensures TakenFor(headers, proxies, addrs, count, isIP) == TakenFor([], proxies, addrs, count, isIP)
      {
        LongChain(headers, proxies, addrs, count, isIP);
      }
    } else {
      var headers := ShortChain(proxies, addrs, count, isIP, valid);
    }
  }

  lemma SentHop(addr: string)
    requires Address(addr)
    ensures Hops([addr]) == [addr]
  {
    BareAddress("", addr);
    HopsOfOne(addr);
  }

  function Other(addr: string): (other: string)
    requires Address(addr)
    ensures Address(other) && other != addr
  {
    if addr == "0" then "1" else "0"
  }
}
