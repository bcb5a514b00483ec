/**
 Redirecting a workflow's own BuildKit config onto the mirror: rewriting quoted
 host:port addresses in the text, and swapping the flag's value in the command line.
 */
module MirrorConfig {

  import opened Wrappers

  const QUOTE: char := '"'

  // ----- characters and searching

  predicate IsSpace(c: char) {
    c == ' ' || c == '\t' || c == '\n' || c == '\r' || c == 12 as char
  }

  predicate IsDigit(c: char) {
    '0' <= c <= '9'
  }

  /** The first position of c, or the length when there is none. */
  function IndexOf(s: string, c: char): (k: nat)
    ensures k <= |s| && c !in s[..k] && (k < |s| ==> s[k] == c)
  {
    if s == [] || s[0] == c then 0
    else
      var k := IndexOf(s[1..], c);
      assert s[..k + 1] == [s[0]] + s[1..][..k];
      k + 1
  }

  /** The last position of c, or the length when there is none. */
  function LastIndexOf(s: string, c: char): (k: nat)
    ensures k <= |s| && (k < |s| ==> s[k] == c && c !in s[k + 1..]) && (k == |s| ==> c !in s)
  {
    if s == [] then 0
    else
      var k := LastIndexOf(s[1..], c);
      if k < |s| - 1 then assert s[k + 2..] == s[1..][k + 1..]; k + 1
      else if s[0] == c then 0 else |s|
  }

  lemma IndexOfUnique(s: string, c: char, k: nat)
    requires k <= |s| && c !in s[..k] && (k < |s| ==> s[k] == c)
    ensures IndexOf(s, c) == k
  {
  }

  lemma LastIndexOfUnique(s: string, c: char, k: nat)
    requires k < |s| && s[k] == c && c !in s[k + 1..]
    ensures LastIndexOf(s, c) == k
  {
  }

  // ----- splitting the mirror's own address, as Go's net.SplitHostPort does

  datatype HostPort = HostPort(host: string, port: string)

  function SplitHostPort(a: string): Option<HostPort> {
    var i := LastIndexOf(a, ':');
    if i == |a| then None
    else if a[0] == '[' then
      var end := IndexOf(a, ']');
      if end + 1 != i || '[' in a[1..] || ']' in a[end + 1..] then None
      else Some(HostPort(a[1..end], a[i + 1..]))
    else if ':' in a[..i] || '[' in a || ']' in a then None
    else Some(HostPort(a[..i], a[i + 1..]))
  }

  // ----- quoted host:port anywhere in the text

  /** The text between two quotes as host and port: a spaceless host, a colon, digits. */
  function ParseAddress(c: string): Option<HostPort> {
    var k := LastIndexOf(c, ':');
    if 0 < k < |c| - 1
       && (forall i :: 0 <= i < k ==> !IsSpace(c[i]))
       && (forall i :: k < i < |c| ==> IsDigit(c[i]))
    then Some(HostPort(c[..k], c[k + 1..])) else None
  }

  /** Where the address quoted at the start of s ends: its closing quote. */
  function Closing(s: string): (j: nat)
    requires s != [] && s[0] == QUOTE
    ensures 1 <= j <= |s|
  {
    1 + IndexOf(s[1..], QUOTE)
  }

  /** The address quoted at the very start of s, if there is one. */
  function AddressAt(s: string): Option<HostPort> {
    if s == [] || s[0] != QUOTE || Closing(s) == |s| then None
    else ParseAddress(s[1..Closing(s)])
  }

  /** What to redirect: the mirror, and which hosts name this machine. */
  datatype Redirect = Redirect(addr: string, mirror: HostPort, local: set<string>, loopback: string -> bool)

  predicate IsLocalHost(r: Redirect, host: string) {
    host in r.local || host == "localhost" || r.loopback(host)
  }

  predicate Redirected(r: Redirect, a: HostPort) {
    a.port == r.mirror.port && a.host != r.mirror.host && IsLocalHost(r, a.host)
  }

  function Quoted(addr: string): string {
    [QUOTE] + addr + [QUOTE]
  }

  /** How much of the text one scanning step takes: a whole match, or one character. */
  function Width(s: string): (n: nat)
    requires s != []
    ensures 1 <= n <= |s|
  {
    if AddressAt(s).Some? then Closing(s) + 1 else 1
  }

  predicate Hit(r: Redirect, s: string) {
    AddressAt(s).Some? && Redirected(r, AddressAt(s).value)
  }

  /** What a scanning step puts out. */
  function Piece(r: Redirect, s: string): string
    requires s != []
  {
    if Hit(r, s) then Quoted(r.addr) else s[..Width(s)]
  }

  /** Leftmost, non-overlapping matches, each redirected or kept; the rest is copied. */
  function Rewritten(r: Redirect, s: string): string
    decreases |s|
  {
    if s == [] then [] else Piece(r, s) + Rewritten(r, s[Width(s)..])
  }

  function Changes(r: Redirect, s: string): nat
    decreases |s|
  {
    if s == [] then 0 else (if Hit(r, s) then 1 else 0) + Changes(r, s[Width(s)..])
  }

  method RewriteMirrorHosts(config: string, addr: string, local: set<string>, loopback: string -> bool)
    returns (rewritten: string, changed: nat)
    ensures var m := SplitHostPort(addr);
            if addr == "" || m.None? then rewritten == config && changed == 0
            else
              var r := Redirect(addr, m.value, local, loopback);
              rewritten == Rewritten(r, config) && changed == Changes(r, config)
  {
    var m := SplitHostPort(addr);
    if addr == "" || m.None? { return config, 0; }
    rewritten, changed := ReplaceAll(Redirect(addr, m.value, local, loopback), config);
  }

  method ReplaceAll(r: Redirect, config: string) returns (rewritten: string, changed: nat)
    ensures rewritten == Rewritten(r, config) && changed == Changes(r, config)
  {
    rewritten, changed := "", 0;
    var rest := config;
    while rest != ""
      invariant rewritten + Rewritten(r, rest) == Rewritten(r, config)
      invariant changed + Changes(r, rest) == Changes(r, config)
      decreases |rest|
    {
      var n, piece, hit := NextPiece(r, rest);
      PieceMoves(r, rewritten, rest);
      rewritten := rewritten + piece;
      if hit { changed := changed + 1; }
      rest := rest[n..];
    }
  }

  lemma PieceMoves(r: Redirect, done: string, rest: string)
    requires rest != ""
    ensures done + Rewritten(r, rest) == (done + Piece(r, rest)) + Rewritten(r, rest[Width(rest)..])
  {
    var piece, tail := Piece(r, rest), Rewritten(r, rest[Width(rest)..]);
    assert done + (piece + tail) == (done + piece) + tail;
  }

  method NextPiece(r: Redirect, rest: string) returns (n: nat, piece: string, hit: bool)
    requires rest != ""
    ensures n == Width(rest) && piece == Piece(r, rest) && hit == Hit(r, rest)
  {
    var a := AddressAt(rest);
    if a.None? { return 1, rest[..1], false; }
    n := Closing(rest) + 1;
    if a.value.port != r.mirror.port || a.value.host == r.mirror.host || !IsLocalHost(r, a.value.host) {
      return n, rest[..n], false;
    }
    return n, Quoted(r.addr), true;
  }

  // ----- rewriting twice, and counting honestly

  /** The mirror's own quoted address is read as an address, and as one to leave alone. */
  predicate ReadsBack(r: Redirect) {
    ParseAddress(r.addr).Some? && !Redirected(r, ParseAddress(r.addr).value)
  }

  /** A quote-free mirror address that reads back, if its port can be met at all. */
  predicate Settled(r: Redirect) {
    QUOTE !in r.addr && (Digits(r.mirror.port) ==> ReadsBack(r))
  }

  predicate Digits(p: string) {
    p != "" && forall i :: 0 <= i < |p| ==> IsDigit(p[i])
  }

  /** No quote, no space. */
  predicate PlainText(h: string) {
    forall i :: 0 <= i < |h| ==> h[i] != QUOTE && !IsSpace(h[i])
  }

  predicate DottedDecimal(h: string) {
    h != "" && forall i :: 0 <= i < |h| ==> IsDigit(h[i]) || h[i] == '.'
  }

  lemma NotInAddress(c: char, host: string, port: string)
    requires c !in host && c !in port && c != ':'
    ensures c !in host + ":" + port
  {
  }

  /** An address of a colon-free host and port splits at its only colon. */
  lemma PlainSplits(host: string, port: string)
    requires host != "" && ':' !in host && ':' !in port
    requires '[' !in host && '[' !in port && ']' !in host && ']' !in port
    ensures SplitHostPort(host + ":" + port) == Some(HostPort(host, port))
  {
    var addr, i := host + ":" + port, |host|;
    assert addr[i] == ':' && addr[i + 1..] == port && addr[..i] == host;
    LastIndexOfUnique(addr, ':', i);
    NotInAddress('[', host, port);
    NotInAddress(']', host, port);
    assert addr[0] in addr;
  }

  /** A spaceless host and a port of digits parse as themselves. */
  lemma PlainParses(host: string, port: string)
    requires host != "" && PlainText(host) && Digits(port)
    ensures var addr := host + ":" + port;
            ParseAddress(addr) == Some(HostPort(host, port)) && QUOTE !in addr
  {
    var addr, k := host + ":" + port, |host|;
    assert addr[k] == ':' && addr[k + 1..] == port && addr[..k] == host;
    assert ':' !in port && QUOTE !in port;
    LastIndexOfUnique(addr, ':', k);
    forall i | 0 <= i < k ensures !IsSpace(addr[i]) { assert addr[i] == host[i]; }
    forall i | k < i < |addr| ensures IsDigit(addr[i]) { assert addr[i] == port[i - k - 1]; }
    NotInAddress(QUOTE, host, port);
  }

  /** An IPv4 mirror address is settled. */
  lemma DottedMirrorIsSettled(host: string, port: string, local: set<string>, loopback: string -> bool)
    requires DottedDecimal(host) && (forall i :: 0 <= i < |port| ==> IsDigit(port[i]))
    ensures var addr := host + ":" + port;
            SplitHostPort(addr) == Some(HostPort(host, port)) && Settled(Redirect(addr, HostPort(host, port), local, loopback))
  {
    PlainSplits(host, port);
    if Digits(port) { PlainParses(host, port); }
  }

  /** A bracketed mirror address is settled exactly when its bracketed host is not itself taken for this machine. */
  lemma BracketedMirrorIsSettled(host: string, port: string, local: set<string>, loopback: string -> bool)
    requires PlainText(host) && '[' !in host && ']' !in host && Digits(port)
    ensures var addr, bracketed := "[" + host + "]:" + port, "[" + host + "]";
            var r := Redirect(addr, HostPort(host, port), local, loopback);
            SplitHostPort(addr) == Some(HostPort(host, port)) && (Settled(r) <==> !IsLocalHost(r, bracketed))
  {
    var addr, bracketed := "[" + host + "]:" + port, "[" + host + "]";
    assert addr == bracketed + ":" + port;
    PlainParses(bracketed, port);
    BracketedSplits(host, port);
    assert bracketed[|host| + 1] == ']';
  }

  lemma NotInEither(c: char, a: string, b: string)
    requires c !in a && c !in b
    ensures c !in a + b
  {
  }

  lemma BracketedText(host: string, port: string)
    ensures var addr, end := "[" + host + "]:" + port, |host| + 1;
            && |addr| == end + 2 + |port| && addr[0] == '[' && addr[end] == ']' && addr[end + 1] == ':'
            && addr[..end] == "[" + host && addr[1..end] == host && addr[1..] == host + ("]:" + port)
            && addr[end + 1..] == ":" + port && addr[end + 2..] == port
  {
  }

  lemma DigitsOnly(port: string)
    requires Digits(port)
    ensures ':' !in port && '[' !in port && ']' !in port && QUOTE !in port
  {
  }

  lemma BracketedSplits(host: string, port: string)
    requires '[' !in host && ']' !in host && Digits(port)
    ensures SplitHostPort("[" + host + "]:" + port) == Some(HostPort(host, port))
  {
    var addr, end := "[" + host + "]:" + port, |host| + 1;
    BracketedText(host, port);
    DigitsOnly(port);
    NotInEither(']', "[", host);
    NotInEither(']', ":", port);
    NotInEither('[', "]:", port);
    NotInEither('[', host, "]:" + port);
    LastIndexOfUnique(addr, ':', end + 1);
    IndexOfUnique(addr, ']', end);
  }

  lemma ClosingOf(addr: string, rest: string)
    requires QUOTE !in addr
    ensures var s := Quoted(addr) + rest;
            Closing(s) == |addr| + 1 < |s| && s[1..|addr| + 1] == addr
  {
    var tail := addr + [QUOTE] + rest;
    assert Quoted(addr) + rest == [QUOTE] + tail;
    assert ([QUOTE] + tail)[1..] == tail;
    assert tail[..|addr|] == addr && tail[|addr|] == QUOTE;
    IndexOfUnique(tail, QUOTE, |addr|);
    assert ([QUOTE] + tail)[1..|addr| + 1] == tail[..|addr|];
  }

  /** A quoted address is read as that address, whatever follows it. */
  lemma QuotedReadsBack(addr: string, rest: string)
    requires QUOTE !in addr
    ensures var s := Quoted(addr) + rest;
            AddressAt(s) == ParseAddress(addr) && Closing(s) == |addr| + 1
  {
    ClosingOf(addr, rest);
  }

  lemma PieceStartsAlike(r: Redirect, s: string)
    requires s != []
    ensures Piece(r, s) != [] && Piece(r, s)[0] == s[0]
    ensures s[0] != QUOTE ==> Width(s) == 1 && Piece(r, s) == [s[0]]
  {
  }

  /** The text up to the first quote is copied, and the first quote stays where it is. */
  lemma {:induction false} FirstQuoteKept(r: Redirect, s: string, k: nat)
    requires k <= |s| && QUOTE !in s[..k] && (k < |s| ==> s[k] == QUOTE)
    ensures var out := Rewritten(r, s);
            k <= |out| && out[..k] == s[..k] && (k == |s| <==> k == |out|) && (k < |s| ==> out[k] == QUOTE)
    decreases |s|
  {
    if s != [] {
      PieceStartsAlike(r, s);
      if k > 0 {
        var rest := Rewritten(r, s[1..]);
        assert s[..k] == [s[0]] + s[1..][..k - 1];
        FirstQuoteKept(r, s[1..], k - 1);
        assert Rewritten(r, s) == [s[0]] + rest;
        assert ([s[0]] + rest)[..k] == [s[0]] + rest[..k - 1];
      }
    }
  }

  /** What is quoted at the start of s, by the position of the next quote. */
  lemma AddressByContent(s: string, k: nat)
    requires s != [] && s[0] == QUOTE && k == IndexOf(s[1..], QUOTE)
    ensures AddressAt(s) == if k + 1 == |s| then None else ParseAddress(s[1..][..k])
  {
    assert k + 1 < |s| ==> s[1..k + 1] == s[1..][..k];
  }

  /** Where no address starts, none starts in the rewritten text either. */
  lemma NoNewAddress(r: Redirect, s: string)
    requires s != [] && AddressAt(s).None?
    ensures AddressAt([s[0]] + Rewritten(r, s[1..])).None?
  {
    var rest := Rewritten(r, s[1..]);
    var out := [s[0]] + rest;
    assert out[1..] == rest;
    if s[0] == QUOTE {
      var k := IndexOf(s[1..], QUOTE);
      FirstQuoteKept(r, s[1..], k);
      IndexOfUnique(rest, QUOTE, k);
      AddressByContent(s, k);
      AddressByContent(out, k);
    }
  }

  lemma SplitAtClosing(s: string, rest: string)
    requires AddressAt(s).Some?
    ensures var j := Closing(s);
            j + 1 <= |s| && AddressAt(s[..j + 1] + rest) == AddressAt(s) && Closing(s[..j + 1] + rest) == j
  {
    var j := Closing(s);
    var t := s[..j + 1] + rest;
    assert t[1..][..j - 1] == s[1..][..j - 1] && t[1..][j - 1] == QUOTE;
    IndexOfUnique(t[1..], QUOTE, j - 1);
    assert t[1..j] == s[1..j];
  }

  /** The piece, followed by rest, is scanned as one step without a hit. */
  ghost predicate Stable(r: Redirect, piece: string, rest: string) {
    var out := piece + rest;
    out != [] && !Hit(r, out) && Width(out) == |piece|
  }

  lemma HitStable(r: Redirect, s: string, rest: string)
    requires Settled(r) && s != [] && Hit(r, s)
    ensures Stable(r, Quoted(r.addr), rest)
  {
    PortIsDigits(s[1..Closing(s)]);
    QuotedReadsBack(r.addr, rest);
  }

  lemma KeptStable(r: Redirect, s: string, rest: string)
    requires AddressAt(s).Some? && !Hit(r, s)
    ensures Stable(r, s[..Width(s)], rest)
  {
    SplitAtClosing(s, rest);
  }

  lemma CopiedStable(r: Redirect, s: string)
    requires s != [] && AddressAt(s).None?
    ensures Stable(r, s[..1], Rewritten(r, s[1..]))
  {
    NoNewAddress(r, s);
    assert s[..1] == [s[0]];
  }

  lemma PieceStable(r: Redirect, s: string)
    requires Settled(r) && s != []
    ensures Stable(r, Piece(r, s), Rewritten(r, s[Width(s)..]))
  {
    if Hit(r, s) {
      HitStable(r, s, Rewritten(r, s[Width(s)..]));
    } else if AddressAt(s).Some? {
      KeptStable(r, s, Rewritten(r, s[Width(s)..]));
    } else {
      CopiedStable(r, s);
    }
  }

  /** A stable piece comes out of the next rewriting as it is. */
  lemma StableUnfolds(r: Redirect, piece: string, rest: string)
    requires Stable(r, piece, rest)
    ensures Rewritten(r, piece + rest) == piece + Rewritten(r, rest) && Changes(r, piece + rest) == Changes(r, rest)
  {
    assert (piece + rest)[|piece|..] == rest && (piece + rest)[..|piece|] == piece;
  }

  /** Rewriting what was rewritten changes nothing, and says so. */
  ghost predicate TwiceIsOnce(r: Redirect, s: string) {
    Rewritten(r, Rewritten(r, s)) == Rewritten(r, s) && Changes(r, Rewritten(r, s)) == 0
  }

  lemma {:induction false} RewriteIdempotent(r: Redirect, s: string)
    requires Settled(r)
    ensures TwiceIsOnce(r, s)
    decreases |s|
  {
    if s != [] {
      RewriteIdempotent(r, s[Width(s)..]);
      PieceStable(r, s);
      StableUnfolds(r, Piece(r, s), Rewritten(r, s[Width(s)..]));
    }
  }

  /** What counts as an address between quotes: something without a blank, a colon, and nothing but digits. */
  lemma AddressesAre(c: string)
    ensures ParseAddress(c).Some? <==>
              exists k :: 0 < k < |c| - 1 && c[k] == ':'
                          && (forall i :: 0 <= i < k ==> c[i] !in {' ', '\t', '\n', '\r', 12 as char})
                          && (forall i :: k < i < |c| ==> '0' <= c[i] <= '9')
  {
    if k :| 0 < k < |c| - 1 && c[k] == ':'
            && (forall i :: 0 <= i < k ==> c[i] !in {' ', '\t', '\n', '\r', 12 as char})
            && (forall i :: k < i < |c| ==> '0' <= c[i] <= '9') {
      assert ':' !in c[k + 1..];
      LastIndexOfUnique(c, ':', k);
    }
  }

  /** Text without a quote is passed over. */
  lemma {:induction false} ChangesSkip(r: Redirect, plain: string, rest: string)
    requires QUOTE !in plain
    ensures Changes(r, plain + rest) == Changes(r, rest)
  {
    if plain == [] {
      assert plain + rest == rest;
    } else {
      assert (plain + rest)[1..] == plain[1..] + rest && plain[0] in plain;
      ChangesSkip(r, plain[1..], rest);
    }
  }

  /** The address at the start of a text, on its own. */
  lemma QuotedAlone(r: Redirect, hit: string, rest: string)
    requires Hit(r, hit)
    ensures var c := hit[1..Closing(hit)];
            && QUOTE !in c && Hit(r, Quoted(c) + rest)
            && Rewritten(r, Quoted(c) + rest) == Quoted(r.addr) + Rewritten(r, rest)
  {
    var c := hit[1..Closing(hit)];
    assert c == hit[1..][..IndexOf(hit[1..], QUOTE)];
    QuotedReadsBack(c, rest);
    assert (Quoted(c) + rest)[|c| + 2..] == rest;
  }

  lemma TailOfQuoted(addr: string, t: string)
    ensures (Quoted(addr) + t)[1..] == addr + ([QUOTE] + t)
  {
  }

  lemma CopiedCounts(r: Redirect, s: string)
    requires s != [] && AddressAt(s).None?
    ensures Changes(r, s) == Changes(r, s[1..])
  {
  }

  lemma UnreadablePassedOver(r: Redirect, t: string)
    requires QUOTE !in r.addr && ParseAddress(r.addr).None?
    ensures Changes(r, Quoted(r.addr) + t) == Changes(r, [QUOTE] + t)
  {
    QuotedReadsBack(r.addr, t);
    CopiedCounts(r, Quoted(r.addr) + t);
    TailOfQuoted(r.addr, t);
    ChangesSkip(r, r.addr, [QUOTE] + t);
  }

  lemma HitCounts(r: Redirect, s: string)
    requires Hit(r, s)
    ensures Changes(r, s) > 0
  {
  }

  lemma Requoted(c: string, t: string)
    requires |c| < |t| && t[..|c|] == c && t[|c|] == QUOTE
    ensures [QUOTE] + t == Quoted(c) + t[|c| + 1..]
  {
  }

  /** Followed by a closing quote, the content of a hit makes the quote before it open an address. */
  lemma ContentReopened(r: Redirect, hit: string, t: string)
    requires Hit(r, hit)
    requires var c := hit[1..Closing(hit)]; |c| < |t| && t[..|c|] == c && t[|c|] == QUOTE
    ensures Changes(r, [QUOTE] + t) > 0
  {
    var c := hit[1..Closing(hit)];
    QuotedAlone(r, hit, t[|c| + 1..]);
    Requoted(c, t);
    HitCounts(r, [QUOTE] + t);
  }

  /** A mirror address that does not parse lets its closing quote open the next address. */
  lemma UnreadableMirrorFails(r: Redirect, hit: string)
    requires QUOTE !in r.addr && Hit(r, hit) && ParseAddress(r.addr).None?
    ensures var c := hit[1..Closing(hit)]; !TwiceIsOnce(r, Quoted(c) + (c + [QUOTE]))
  {
    var c := hit[1..Closing(hit)];
    var rest := c + [QUOTE];
    var t := Rewritten(r, rest);
    QuotedAlone(r, hit, rest);
    assert rest[..|c|] == c;
    FirstQuoteKept(r, rest, |c|);
    UnreadablePassedOver(r, t);
    ContentReopened(r, hit, t);
  }

  /** A mirror address that is itself redirected is counted as a change again. */
  lemma RedirectedMirrorFails(r: Redirect, hit: string)
    requires QUOTE !in r.addr && Hit(r, hit) && ParseAddress(r.addr).Some? && Redirected(r, ParseAddress(r.addr).value)
    ensures !TwiceIsOnce(r, Quoted(hit[1..Closing(hit)]))
  {
    var q := Quoted(hit[1..Closing(hit)]);
    QuotedAlone(r, hit, "");
    assert q + "" == q;
    QuotedReadsBack(r.addr, "");
    assert Quoted(r.addr) + "" == Quoted(r.addr);
  }

  lemma IdempotentIfReadsBack(r: Redirect)
    requires QUOTE !in r.addr && ReadsBack(r)
    ensures forall s :: TwiceIsOnce(r, s)
  {
    forall s ensures TwiceIsOnce(r, s) { RewriteIdempotent(r, s); }
  }

  lemma OtherwiseFails(r: Redirect, hit: string) returns (s: string)
    requires QUOTE !in r.addr && Hit(r, hit) && !ReadsBack(r)
    ensures !TwiceIsOnce(r, s)
  {
    var c := hit[1..Closing(hit)];
    if ParseAddress(r.addr).None? {
      UnreadableMirrorFails(r, hit);
      s := Quoted(c) + (c + [QUOTE]);
    } else {
      RedirectedMirrorFails(r, hit);
      s := Quoted(c);
    }
  }

  /** Where anything is redirected at all, rewriting is idempotent on every text exactly when the mirror's own address reads back. */
  lemma IdempotentExactly(r: Redirect, hit: string)
    requires QUOTE !in r.addr && Hit(r, hit)
    ensures (forall s :: TwiceIsOnce(r, s)) <==> ParseAddress(r.addr).Some? && !Redirected(r, ParseAddress(r.addr).value)
  {
    if ReadsBack(r) {
      IdempotentIfReadsBack(r);
    } else {
      var s := OtherwiseFails(r, hit);
    }
  }

  lemma PortIsDigits(c: string)
    requires ParseAddress(c).Some?
    ensures Digits(ParseAddress(c).value.port)
  {
  }

  lemma HitDiffers(r: Redirect, s: string, rest: string)
    requires Settled(r) && s != [] && Hit(r, s)
    ensures Quoted(r.addr) + rest != s
  {
    PortIsDigits(s[1..Closing(s)]);
    QuotedReadsBack(r.addr, rest);
  }

  lemma HitUnfolds(r: Redirect, s: string)
    requires Settled(r) && s != [] && Hit(r, s)
    ensures Rewritten(r, s) != s && Changes(r, s) > 0
  {
    HitDiffers(r, s, Rewritten(r, s[Width(s)..]));
  }

  lemma MissUnfolds(r: Redirect, s: string)
    requires s != [] && !Hit(r, s)
    ensures var n := Width(s);
            Rewritten(r, s) == s[..n] + Rewritten(r, s[n..]) && Changes(r, s) == Changes(r, s[n..])
  {
  }

  lemma SameTail(s: string, n: nat, out: string, tail: string)
    requires n <= |s| && out == s[..n] + tail
    ensures out == s <==> tail == s[n..]
  {
    assert s == s[..n] + s[n..];
    assert out[n..] == tail;
  }

  lemma MissStep(r: Redirect, s: string, n: nat)
    requires s != [] && !Hit(r, s) && n == Width(s)
    requires Changes(r, s[n..]) == 0 <==> Rewritten(r, s[n..]) == s[n..]
    ensures Changes(r, s) == 0 <==> Rewritten(r, s) == s
  {
    MissUnfolds(r, s);
    SameTail(s, n, Rewritten(r, s), Rewritten(r, s[n..]));
  }

  /** Zero changes are reported exactly when the text is unchanged. */
  lemma {:induction false} ChangesCountRewrites(r: Redirect, s: string)
    requires Settled(r)
    ensures Changes(r, s) == 0 <==> Rewritten(r, s) == s
    decreases |s|
  {
    if s != [] {
      var n := Width(s);
      if Hit(r, s) {
        HitUnfolds(r, s);
      } else {
        ChangesCountRewrites(r, s[n..]);
        MissStep(r, s, n);
      }
    }
  }

  /**
   An address quoted anywhere in the text, after text without quotes: it becomes the mirror's when
   it has the mirror's port, another host, and that host is one of this machine's, localhost or a
   loopback address. Otherwise it stays.
   */
  lemma QuotedAddressRewritten(r: Redirect, before: string, host: string, port: string, rest: string)
    requires QUOTE !in before && host != "" && PlainText(host) && Digits(port)
    ensures var hit := port == r.mirror.port && host != r.mirror.host && (host in r.local || host == "localhost" || r.loopback(host));
            var text := before + ("\"" + (host + ":" + port) + "\"" + rest);
            && Rewritten(r, text) == before + ((if hit then "\"" + r.addr + "\"" else "\"" + (host + ":" + port) + "\"") + Rewritten(r, rest))
            && Changes(r, text) == (if hit then 1 else 0) + Changes(r, rest)
  {
    var addr := host + ":" + port;
    var quoted := "\"" + addr + "\"" + rest;
    assert quoted == Quoted(addr) + rest;
    PlainParses(host, port);
    QuotedReadsBack(addr, rest);
    assert quoted[|addr| + 2..] == rest && quoted[..|addr| + 2] == Quoted(addr);
    RewrittenSkip(r, before, quoted);
    ChangesSkip(r, before, quoted);
  }

  lemma CharCopied(r: Redirect, s: string)
    requires s != [] && s[0] != QUOTE
    ensures Rewritten(r, s) == [s[0]] + Rewritten(r, s[1..])
  {
    PieceStartsAlike(r, s);
  }

  lemma {:induction false} RewrittenSkip(r: Redirect, plain: string, rest: string)
    requires QUOTE !in plain
    ensures Rewritten(r, plain + rest) == plain + Rewritten(r, rest)
  {
    if plain == [] {
      assert plain + rest == rest && plain + Rewritten(r, rest) == Rewritten(r, rest);
    } else {
      assert plain[0] in plain;
      CharCopied(r, plain + rest);
      assert (plain + rest)[1..] == plain[1..] + rest;
      RewrittenSkip(r, plain[1..], rest);
      Regrouped(plain, Rewritten(r, rest));
    }
  }

  lemma Regrouped(a: string, b: string)
    requires a != []
    ensures [a[0]] + (a[1..] + b) == a + b
  {
  }

  /** An address without a colon has no port, and one with two outside brackets has no telling which: neither is a mirror. */
  lemma NoMirror(addr: string, i: nat, j: nat)
    ensures ':' !in addr ==> SplitHostPort(addr).None?
    ensures i < j < |addr| && addr[i] == addr[j] == ':' && addr[0] != '[' ==> SplitHostPort(addr).None?
  {
    var k := LastIndexOf(addr, ':');
    if i < j < |addr| && addr[i] == addr[j] == ':' && addr[0] != '[' {
      assert addr[..k][i] == ':';
    }
  }

  // ----- the flag that carries the config

  const CONFIG_FLAGS := {"--buildkitd-config", "--buildkitd-config-inline", "--config", "--config-inline"}

  datatype Cut = Cut(name: string, value: string, inline: bool)

  /** Splits a token at its first equals sign. */
  function CutFlag(token: string): Cut {
    var k := IndexOf(token, '=');
    if k == |token| then Cut(token, "", false) else Cut(token[..k], token[k + 1..], true)
  }

  datatype ConfigFlag = ConfigFlag(index: nat, flag: string, value: string, toml: bool)

  predicate IsInlineFlag(flag: string) {
    |flag| >= 7 && flag[|flag| - 7..] == "-inline"
  }

  /** The first of some flags that has a value, scanning from i. */
  function FindFlag(args: seq<string>, flags: set<string>, i: nat): (f: Option<ConfigFlag>)
    requires i <= |args|
    ensures f.Some? ==> i <= f.value.index < |args|
    decreases |args| - i
  {
    if i == |args| then None
    else
      var c := CutFlag(args[i]);
      if c.name in flags && c.inline then Some(ConfigFlag(i, c.name, c.value, IsInlineFlag(c.name)))
      else if c.name in flags && i + 1 < |args| then Some(ConfigFlag(i, c.name, args[i + 1], IsInlineFlag(c.name)))
      else FindFlag(args, flags, i + 1)
  }

  function UserConfigFlag(args: seq<string>): (f: Option<ConfigFlag>)
    ensures f.Some? ==> f.value.index < |args|
  {
    FindFlag(args, CONFIG_FLAGS, 0)
  }

  function Replaced(argv: seq<string>, flag: string, value: string, i: nat): (out: seq<string>)
    requires i <= |argv|
    ensures |out| == |argv|
    decreases |argv| - i
  {
    if i == |argv| then argv
    else
      var c := CutFlag(argv[i]);
      if c.name != flag then Replaced(argv, flag, value, i + 1)
      else if c.inline then argv[i := flag + "=" + value]
      else if i + 1 < |argv| then argv[i + 1 := value]
      else argv
  }

  method ReplaceFlagValue(argv: seq<string>, flag: string, value: string) returns (out: seq<string>)
    ensures out == Replaced(argv, flag, value, 0)
    ensures (forall k :: 0 <= k < |argv| ==> CutFlag(argv[k]).name != flag) ==> out == argv
  {
    out := argv;
    var i := 0;
    while i < |out|
      invariant 0 <= i <= |out| && out == argv
      invariant Replaced(argv, flag, value, 0) == Replaced(argv, flag, value, i)
    {
      var c := CutFlag(out[i]);
      if c.name == flag {
        if c.inline {
          out := out[i := flag + "=" + value];
          return;
        }
        if i + 1 < |out| {
          out := out[i + 1 := value];
          return;
        }
      }
      i := i + 1;
    }
  }

  lemma FlagsHaveNoEquals()
    ensures forall f :: f in CONFIG_FLAGS ==> '=' !in f
  {
  }

  lemma CutAssigned(flag: string, value: string)
    requires '=' !in flag
    ensures CutFlag(flag + "=" + value) == Cut(flag, value, true)
  {
    var token := flag + "=" + value;
    assert token[..|flag|] == flag && token[|flag|] == '=' && token[|flag| + 1..] == value;
    IndexOfUnique(token, '=', |flag|);
  }

  /** The search stops at the first token that qualifies; every token before it was passed over. */
  lemma {:induction false} FoundAt(args: seq<string>, flags: set<string>, i: nat)
    requires i <= |args| && FindFlag(args, flags, i).Some?
    ensures var f := FindFlag(args, flags, i).value;
            var c := CutFlag(args[f.index]);
            && f.flag == c.name && f.flag in flags && f.toml == IsInlineFlag(f.flag)
            && (c.inline || f.index + 1 < |args|)
            && forall k :: i <= k < f.index ==> CutFlag(args[k]).name !in flags
    decreases |args| - i
  {
    var c := CutFlag(args[i]);
    if !(c.name in flags && (c.inline || i + 1 < |args|)) {
      FoundAt(args, flags, i + 1);
    }
  }

  lemma FirstFlag(args: seq<string>, flags: set<string>, n: nat, c: Cut)
    requires n < |args| && (forall k :: 0 <= k < n ==> CutFlag(args[k]).name !in flags)
    requires CutFlag(args[n]) == c && c.name in flags
    ensures FindFlag(args, flags, 0)
            == if c.inline then Some(ConfigFlag(n, c.name, c.value, IsInlineFlag(c.name)))
               else if n + 1 < |args| then Some(ConfigFlag(n, c.name, args[n + 1], IsInlineFlag(c.name)))
               else None
  {
    SkipTo(args, flags, 0, n);
  }

  lemma NoFlag(args: seq<string>, flags: set<string>)
    requires forall k :: 0 <= k < |args| ==> CutFlag(args[k]).name !in flags
    ensures FindFlag(args, flags, 0) == None
  {
    SkipTo(args, flags, 0, |args|);
  }

  /** A flag of the vocabulary is found with the token after it, when nothing before it is one; alone at the end it is not. */
  lemma FlagFound(before: seq<string>, flag: string, value: string, after: seq<string>)
    requires flag in {"--buildkitd-config", "--buildkitd-config-inline", "--config", "--config-inline"}
    requires forall k :: 0 <= k < |before| ==> CutFlag(before[k]).name !in CONFIG_FLAGS
    ensures UserConfigFlag(before + ([flag, value] + after))
            == Some(ConfigFlag(|before|, flag, value, flag == "--buildkitd-config-inline" || flag == "--config-inline"))
    ensures UserConfigFlag(before + [flag]) == None && UserConfigFlag(before) == None
  {
    FlagsHaveNoEquals();
    NoEqualsNoCut(flag);
    InlineFlags(flag);
    FirstFlag(before + ([flag, value] + after), CONFIG_FLAGS, |before|, Cut(flag, "", false));
    FirstFlag(before + [flag], CONFIG_FLAGS, |before|, Cut(flag, "", false));
    NoFlag(before, CONFIG_FLAGS);
  }

  /** So is one that carries its value. */
  lemma AssignedFlagFound(before: seq<string>, flag: string, value: string, after: seq<string>)
    requires flag in {"--buildkitd-config", "--buildkitd-config-inline", "--config", "--config-inline"}
    requires forall k :: 0 <= k < |before| ==> CutFlag(before[k]).name !in CONFIG_FLAGS
    ensures UserConfigFlag(before + ([flag + "=" + value] + after))
            == Some(ConfigFlag(|before|, flag, value, flag == "--buildkitd-config-inline" || flag == "--config-inline"))
  {
    FlagsHaveNoEquals();
    CutAssigned(flag, value);
    InlineFlags(flag);
    FirstFlag(before + ([flag + "=" + value] + after), CONFIG_FLAGS, |before|, Cut(flag, value, true));
  }

  lemma NoEqualsNoCut(token: string)
    requires '=' !in token
    ensures CutFlag(token) == Cut(token, "", false)
  {
    IndexOfUnique(token, '=', |token|);
  }

  lemma InlineFlags(flag: string)
    requires flag in CONFIG_FLAGS
    ensures IsInlineFlag(flag) <==> flag == "--buildkitd-config-inline" || flag == "--config-inline"
  {
    assert "--buildkitd-config-inline"[|"--buildkitd-config-inline"| - 7..] == "-inline";
    assert "--config-inline"[|"--config-inline"| - 7..] == "-inline";
    assert "--buildkitd-config"[|"--buildkitd-config"| - 7..] == "-config";
    assert "--config"[1..] == "-config";
  }

  lemma {:induction false} SkipTo(args: seq<string>, flags: set<string>, i: nat, k: nat)
    requires i <= k <= |args| && forall m :: i <= m < k ==> CutFlag(args[m]).name !in flags
    ensures FindFlag(args, flags, i) == FindFlag(args, flags, k)
    decreases k - i
  {
    if i < k {
      assert CutFlag(args[i]).name !in flags;
      SkipTo(args, flags, i + 1, k);
    }
  }

  lemma {:induction false} ReplaceSkipTo(args: seq<string>, flags: set<string>, flag: string, value: string, i: nat, k: nat)
    requires i <= k <= |args| && flag in flags && forall m :: i <= m < k ==> CutFlag(args[m]).name !in flags
    ensures Replaced(args, flag, value, i) == Replaced(args, flag, value, k)
    decreases k - i
  {
    if i < k {
      assert CutFlag(args[i]).name !in flags;
      ReplaceSkipTo(args, flags, flag, value, i + 1, k);
    }
  }

  lemma ReplaceFound(argv: seq<string>, flags: set<string>, value: string)
    requires FindFlag(argv, flags, 0).Some? && forall f :: f in flags ==> '=' !in f
    ensures var f := FindFlag(argv, flags, 0).value;
            var out := Replaced(argv, f.flag, value, 0);
            var at := if CutFlag(argv[f.index]).inline then f.index else f.index + 1;
            && FindFlag(out, flags, 0) == Some(f.(value := value))
            && at < |argv| && forall k :: 0 <= k < |argv| && k != at ==> out[k] == argv[k]
  {
    FoundAt(argv, flags, 0);
    var f := FindFlag(argv, flags, 0).value;
    var out := Replaced(argv, f.flag, value, 0);
    ReplaceSkipTo(argv, flags, f.flag, value, 0, f.index);
    CutAssigned(f.flag, value);
    SkipTo(out, flags, 0, f.index);
  }

  /**
   Reading back a replaced config flag finds the same flag, in the same place, with the
   new value; every token but the one that held the value is untouched.
   */
  lemma FlagRoundTrip(argv: seq<string>, value: string)
    requires UserConfigFlag(argv).Some?
    ensures var f := UserConfigFlag(argv).value;
            var out := Replaced(argv, f.flag, value, 0);
            var at := if CutFlag(argv[f.index]).inline then f.index else f.index + 1;
            && UserConfigFlag(out) == Some(f.(value := value))
            && |out| == |argv| && forall k :: 0 <= k < |argv| && k != at ==> out[k] == argv[k]
  {
    FlagsHaveNoEquals();
    ReplaceFound(argv, CONFIG_FLAGS, value);
  }
}
