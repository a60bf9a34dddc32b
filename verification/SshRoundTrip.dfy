/** A reference SSH server greeting, and that the reader recovers it. */
module SshRoundTrip {
  import opened Wrappers
  import opened Sequences
  import opened Sockets
  import opened SshReader

  // ----- name lists: section 5 of RFC 4251 -----

  predicate IsAscii(s: string) {
    forall i :: 0 <= i < |s| ==> s[i] as int < 128
  }

  /** A non-empty, comma-free ASCII name. */
  predicate IsName(name: string) {
    name != "" && IsAscii(name) && ',' !in name
  }

  predicate AreNames(names: seq<string>) {
    forall i :: 0 <= i < |names| ==> IsName(names[i])
  }

  function Join(names: seq<string>): string {
    if names == [] then ""
    else if |names| == 1 then names[0]
    else names[0] + "," + Join(names[1..])
  }

  function AsciiBytes(s: string): (b: Bytes)
    ensures |b| == |s|
  {
    seq(|s|, i requires 0 <= i < |s| => s[i] as int)
  }

  lemma DecodeInvertsAscii(s: string)
    requires IsAscii(s)
    ensures DecodeAscii(AsciiBytes(s)) == s
  {
  }

  lemma {:induction false} SplitWord(word: string, rest: string)
    requires ',' !in word
    ensures Split(word + "," + rest) == [word] + Split(rest)
    ensures Split(word) == [word]
  {
    if word == "" {
      assert word + "," + rest == "," + rest;
      assert ("," + rest)[1..] == rest;
    } else {
      assert (word + "," + rest)[1..] == word[1..] + "," + rest;
      assert word == [word[0]] + word[1..];
      SplitWord(word[1..], rest);
    }
  }

  lemma {:induction false} SplitInvertsJoin(names: seq<string>)
    requires AreNames(names) && names != []
    ensures Split(Join(names)) == names && Join(names) != "" && IsAscii(Join(names))
  {
    if |names| == 1 {
      SplitWord(names[0], "");
    } else {
      SplitInvertsJoin(names[1..]);
      SplitWord(names[0], Join(names[1..]));
    }
  }

  /** Printing a list of names and reading it gives the list back, the empty list included. */
  lemma NamesInvertJoin(names: seq<string>)
    requires AreNames(names)
    ensures Names(Join(names)) == names && IsAscii(Join(names))
  {
    if names != [] {
      SplitInvertsJoin(names);
    }
  }

  predicate Short(names: seq<string>) {
    |Join(names)| < 0x1_0000_0000
  }

  function PrintNamelist(names: seq<string>): Bytes
    requires Short(names)
  {
    U32(|Join(names)|) + AsciiBytes(Join(names))
  }

  predicate AreLists(lists: seq<seq<string>>) {
    forall i :: 0 <= i < |lists| ==> AreNames(lists[i]) && Short(lists[i])
  }

  function PrintNamelists(lists: seq<seq<string>>): Bytes
    requires AreLists(lists)
  {
    if lists == [] then [] else PrintNamelist(lists[0]) + PrintNamelists(lists[1..])
  }

  lemma NamelistIsRead(before: Bytes, names: seq<string>, after: Bytes)
    requires AreNames(names) && Short(names)
    ensures ReadNamelist(before + PrintNamelist(names) + after, |before|)
         == Ok(Listed(names, |before| + |PrintNamelist(names)|))
  {
    hide U32, Read32, Join, AsciiBytes, DecodeAscii, Names;
    var payload, n, at := before + PrintNamelist(names) + after, |Join(names)|, |before|;
    assert payload[at..at + 4] == U32(n);
    assert payload[at + 4..at + 4 + n] == AsciiBytes(Join(names));
    Read32Inverts(n);
    NamesInvertJoin(names);
    DecodeInvertsAscii(Join(names));
  }

  lemma {:induction false} NamelistsAreRead(before: Bytes, lists: seq<seq<string>>, after: Bytes)
    requires AreLists(lists)
    ensures ReadNamelists(before + PrintNamelists(lists) + after, |before|, |lists|) == Ok(lists)
    decreases |lists|
  {
    hide ReadNamelist, ReadNamelists, PrintNamelist, PrintNamelists, AreNames, Short;
    var payload := before + PrintNamelists(lists) + after;
    if lists == [] {
      NoNamelists(payload, |before|);
    } else {
      var first, rest := PrintNamelist(lists[0]), lists[1..];
      var printed := PrintNamelists(rest);
      assert PrintNamelists(lists) == first + printed by { FirstPrinted(lists); }
      Regrouped(before, first, printed, after);
      NamelistIsRead(before, lists[0], printed + after);
      NamelistsAreRead(before + first, rest, after);
      MoreNamelists(payload, |before|, |rest|, Listed(lists[0], |before + first|), rest);
      assert [lists[0]] + rest == lists;
    }
  }

  lemma Regrouped(a: Bytes, b: Bytes, c: Bytes, d: Bytes)
    ensures a + (b + c) + d == a + b + (c + d) == (a + b) + c + d
  {
  }

  lemma FirstPrinted(lists: seq<seq<string>>)
    requires AreLists(lists) && lists != []
    ensures PrintNamelists(lists) == PrintNamelist(lists[0]) + PrintNamelists(lists[1..])
  {
  }

  lemma NoNamelists(payload: Bytes, offset: nat)
    ensures ReadNamelists(payload, offset, 0) == Ok([])
  {
  }

  lemma MoreNamelists(payload: Bytes, offset: nat, count: nat, first: Listed, rest: seq<seq<string>>)
    requires ReadNamelist(payload, offset) == Ok(first) && ReadNamelists(payload, first.offset, count) == Ok(rest)
    ensures ReadNamelists(payload, offset, count + 1) == Ok([first.names] + rest)
  {
  }

  // ----- KEXINIT and packet: sections 6 and 7.1 of RFC 4253 -----

  function PrintKexinit(cookie: Bytes, lists: seq<seq<string>>, more: Bytes): Bytes
    requires AreLists(lists)
  {
    [KEXINIT] + cookie + PrintNamelists(lists) + more
  }

  /** The two-way union the reader reports for ciphers and for MACs. */
  function OfferOf(lists: seq<seq<string>>): Offer
    requires |lists| == 6
  {
    Offer(lists[0], lists[1], FirstOccurrences(lists[2] + lists[3]), FirstOccurrences(lists[4] + lists[5]))
  }

  lemma KexinitIsParsed(cookie: Bytes, lists: seq<seq<string>>, more: Bytes)
    requires |cookie| == COOKIE_BYTES && |lists| == 6 && AreLists(lists)
    ensures ParseKexinit(PrintKexinit(cookie, lists, more)) == Ok(OfferOf(lists))
  {
    hide ReadNamelists, PrintNamelists;
    NamelistsAreRead([KEXINIT] + cookie, lists, more);
  }

  /** Padding that makes a legal packet. */
  predicate LegalPadding(payload: Bytes, padding: Bytes) {
    && 4 <= |padding| <= 255
    && (|payload| + |padding| + 5) % 8 == 0 && |payload| + |padding| + 1 <= 65536
  }

  function PrintPacket(payload: Bytes, padding: Bytes): Bytes
    requires LegalPadding(payload, padding)
  {
    U32(|payload| + |padding| + 1) + [|padding|] + payload + padding
  }

  lemma PacketIsTaken(payload: Bytes, padding: Bytes, tail: Bytes)
    requires LegalPadding(payload, padding)
    ensures TakePacket(PrintPacket(payload, padding) + tail) == Ok(Taken(payload, tail))
  {
    hide U32, Read32;
    var stream, n := PrintPacket(payload, padding) + tail, |payload| + |padding| + 1;
    assert stream[..4] == U32(n);
    Read32Inverts(n);
    var body := stream[4..4 + n];
    assert body == [|padding|] + payload + padding;
    assert body[1..n - |padding|] == payload && stream[4 + n..] == tail;
  }

  /** Whatever is taken for a packet is a legal one, and exactly it is taken. */
  lemma TakenIsPacket(stream: Bytes, taken: Taken<Bytes>) returns (padding: Bytes)
    requires IsBytes(stream) && TakePacket(stream) == Ok(taken)
    ensures LegalPadding(taken.value, padding) && stream == PrintPacket(taken.value, padding) + taken.rest
  {
    hide U32, Read32;
    var n := Read32(stream[..4]);
    var body := stream[4..4 + n];
    padding := body[n - body[0]..];
    assert IsBytes(stream[..4]) && body[0] == stream[4];
    Read32IsPrinted(stream[..4]);
    assert body == [body[0]] + body[1..n - body[0]] + padding;
    assert stream == stream[..4] + body + stream[4 + n..];
  }

  /** A name list as it is on the wire, before its text is split. */
  function PrintRaw(raws: seq<Bytes>): Bytes
    requires forall i :: 0 <= i < |raws| ==> |raws[i]| < 0x1_0000_0000
  {
    if raws == [] then [] else U32(|raws[0]|) + raws[0] + PrintRaw(raws[1..])
  }

  lemma {:induction false} ReadListsArePrinted(payload: Bytes, offset: nat, count: nat) returns (raws: seq<Bytes>, more: Bytes)
    requires IsBytes(payload) && offset <= |payload| && ReadNamelists(payload, offset, count).Ok?
    ensures |raws| == count && forall i :: 0 <= i < |raws| ==> |raws[i]| < 0x1_0000_0000
    ensures payload[offset..] == PrintRaw(raws) + more
    ensures forall i :: 0 <= i < count ==> ReadNamelists(payload, offset, count).value[i] == Names(DecodeAscii(raws[i]))
    decreases count
  {
    hide U32, Read32, Names, DecodeAscii;
    if count == 0 {
      raws, more := [], payload[offset..];
    } else {
      var head := payload[offset..offset + 4];
      var n, start := Read32(head), offset + 4;
      Read32IsPrinted(head);
      raws, more := ReadListsArePrinted(payload, start + n, count - 1);
      var raw := payload[start..start + n];
      raws := [raw] + raws;
      assert payload[offset..] == head + raw + payload[start + n..];
      assert raws[1..] == raws[1..];
    }
  }

  /** Whatever is accepted as a KEXINIT has its number, its cookie and the six lists the reader wants, and
      their texts are what it reports. */
  lemma ParsedIsKexinit(payload: Bytes) returns (cookie: Bytes, raws: seq<Bytes>, more: Bytes)
    requires IsBytes(payload) && ParseKexinit(payload).Ok?
    ensures |cookie| == 16 && |raws| == 6 && forall i :: 0 <= i < |raws| ==> |raws[i]| < 0x1_0000_0000
    ensures payload == [20] + cookie + PrintRaw(raws) + more
    ensures var offer := ParseKexinit(payload).value;
      && offer.kex == Names(DecodeAscii(raws[0])) && offer.hostKeys == Names(DecodeAscii(raws[1]))
      && IsUnion(offer.ciphers, Names(DecodeAscii(raws[2])), Names(DecodeAscii(raws[3])))
      && IsUnion(offer.macs, Names(DecodeAscii(raws[4])), Names(DecodeAscii(raws[5])))
  {
    hide PrintRaw, Names, DecodeAscii, FirstOccurrences, IsUnion, ReadNamelist;
    KexinitIsLongEnough(payload, 17);
    cookie := payload[1..17];
    raws, more := ReadListsArePrinted(payload, 17, 6);
    UnionIsFirstOccurrences(Names(DecodeAscii(raws[2])), Names(DecodeAscii(raws[3])));
    UnionIsFirstOccurrences(Names(DecodeAscii(raws[4])), Names(DecodeAscii(raws[5])));
    assert payload == [payload[0]] + cookie + payload[17..];
  }

  lemma KexinitIsLongEnough(payload: Bytes, offset: nat)
    requires ReadNamelists(payload, offset, 6).Ok?
    ensures offset <= |payload|
  {
  }

  // ----- banner: section 4.2 of RFC 4253 -----

  /** A line and how it ends. */
  datatype Line = Line(content: Bytes, cr: bool)

  predicate IsLine(l: Line) {
    LF !in l.content && (l.cr || l.content == [] || l.content[|l.content| - 1] != CR)
  }

  function PrintLine(l: Line): Bytes {
    l.content + (if l.cr then [CR] else []) + [LF]
  }

  function PrintLines(lines: seq<Line>): Bytes {
    if lines == [] then [] else PrintLine(lines[0]) + PrintLines(lines[1..])
  }

  lemma {:induction false} BeforeAbsent(b: Bytes, last: nat, end: Bytes)
    requires last !in b && |end| == 1 && end[0] == last
    ensures Before(b + end, end) == b && Before(b, end) == b
  {
    if b != [] {
      BeforeAbsent(b[1..], last, end);
      assert (b + end)[1..] == b[1..] + end;
      assert (b + end)[..1] == [b[0]] && b[..1] == [b[0]];
      assert b == [b[0]] + b[1..];
    } else {
      assert b + end == end;
    }
  }

  /** Cutting at CRLF ends a line with that ending, */
  lemma {:induction false} BeforeCrLf(b: Bytes)
    requires LF !in b
    ensures Before(b + [CR, LF], [CR, LF]) == b
  {
    var all := b + [CR, LF];
    if b == [] {
      assert all == [CR, LF];
    } else {
      assert all[1..] == b[1..] + [CR, LF];
      assert all[..2][1] == if |b| == 1 then CR else b[1];
      BeforeCrLf(b[1..]);
      assert b == [b[0]] + b[1..];
    }
  }

  /** and leaves one that ends in LF alone. */
  lemma {:induction false} BeforeBareLf(b: Bytes)
    requires LF !in b && (b == [] || b[|b| - 1] != CR)
    ensures Before(b + [LF], [CR, LF]) == b + [LF]
  {
    var all := b + [LF];
    if b == [] {
    } else {
      assert all[1..] == b[1..] + [LF];
      assert all[..2] == [b[0], all[1]];
      BeforeBareLf(b[1..]);
      assert all == [b[0]] + all[1..];
    }
  }

  lemma LineTextIsContent(l: Line)
    requires IsLine(l)
    ensures LineText(PrintLine(l)) == l.content
  {
    hide Before;
    BeforeAbsent(l.content, LF, [LF]);
    if l.cr {
      BeforeCrLf(l.content);
      assert PrintLine(l) == l.content + [CR, LF];
    } else {
      BeforeBareLf(l.content);
      assert PrintLine(l) == l.content + [LF];
    }
  }

  lemma {:induction false} LineIsScanned(pending: Bytes, line: Bytes, rest: Bytes, total: nat)
    requires LF !in pending && total + |pending| + 1 <= MAX_BANNER
    ensures var whole := line + pending + [LF];
      ScanBanner(pending + [LF] + rest, line, total)
        == if IsBanner(LineText(whole)) then Ok(Taken(LineText(whole), rest))
           else ScanBanner(rest, [], total + |pending| + 1)
    decreases |pending|
  {
    hide LineText;
    var stream := pending + [LF] + rest;
    if pending == [] {
      assert stream == [LF] + rest;
      assert line + pending + [LF] == line + [LF];
    } else {
      assert stream[1..] == pending[1..] + [LF] + rest && stream[0] == pending[0];
      assert line + pending + [LF] == (line + [pending[0]]) + pending[1..] + [LF];
      LineIsScanned(pending[1..], line + [pending[0]], rest, total + 1);
    }
  }

  lemma PrintedLineIsScanned(l: Line, rest: Bytes, total: nat)
    requires IsLine(l) && total + |PrintLine(l)| <= MAX_BANNER
    ensures ScanBanner(PrintLine(l) + rest, [], total)
         == if IsBanner(l.content) then Ok(Taken(l.content, rest))
            else ScanBanner(rest, [], total + |PrintLine(l)|)
  {
    hide ScanBanner, LineText;
    var pending := l.content + if l.cr then [CR] else [];
    assert PrintLine(l) == pending + [LF] && [] + pending + [LF] == PrintLine(l);
    LineIsScanned(pending, [], rest, total);
    LineTextIsContent(l);
  }

  /** Lines before the banner are skipped, the banner's text is returned, nothing more is read. */
  lemma {:induction false} BannerIsFound(lines: seq<Line>, banner: Line, rest: Bytes, total: nat)
    requires forall i :: 0 <= i < |lines| ==> IsLine(lines[i]) && !IsBanner(lines[i].content)
    requires IsLine(banner) && IsBanner(banner.content)
    requires total + |PrintLines(lines) + PrintLine(banner)| <= 8192
    ensures ScanBanner(PrintLines(lines) + PrintLine(banner) + rest, [], total) == Ok(Taken(banner.content, rest))
    decreases |lines|
  {
    hide ScanBanner, PrintLine, IsLine, IsBanner;
    if lines == [] {
      assert PrintLines(lines) + PrintLine(banner) + rest == PrintLine(banner) + rest;
      PrintedLineIsScanned(banner, rest, total);
    } else {
      var others := PrintLines(lines[1..]) + PrintLine(banner) + rest;
      assert PrintLines(lines) + PrintLine(banner) + rest == PrintLine(lines[0]) + others;
      PrintedLineIsScanned(lines[0], others, total);
      BannerIsFound(lines[1..], banner, rest, total + |PrintLine(lines[0])|);
    }
  }

  /** A line as it stands in the stream: its end is LF, or CR and LF. */
  function LineOf(pending: Bytes): Line {
    if pending != [] && pending[|pending| - 1] == CR then Line(pending[..|pending| - 1], true) else Line(pending, false)
  }

  lemma LineOfPrints(pending: Bytes)
    requires LF !in pending
    ensures IsLine(LineOf(pending)) && PrintLine(LineOf(pending)) == pending + [LF]
  {
    if pending != [] && pending[|pending| - 1] == CR {
      assert pending == pending[..|pending| - 1] + [CR];
    }
  }

  /** What is found is a banner line after lines that are none, within the limit. */
  lemma {:induction false} FoundIsBanner(stream: Bytes, line: Bytes, total: nat, taken: Taken<Bytes>)
    returns (lines: seq<Line>, banner: Line)
    requires LF !in line && |line| <= total && ScanBanner(stream, line, total) == Ok(taken)
    ensures forall i :: 0 <= i < |lines| ==> IsLine(lines[i]) && !IsBanner(lines[i].content)
    ensures IsLine(banner) && IsBanner(banner.content) && taken.value == banner.content
    ensures line + stream == PrintLines(lines) + PrintLine(banner) + taken.rest
    ensures total - |line| + |PrintLines(lines) + PrintLine(banner)| <= 8192
    decreases |stream|
  {
    hide ScanBanner, LineText, IsLine, PrintLine, PrintLines, IsBanner;
    ScanUnfolds(stream, line, total, taken);
    var next, rest := line + [stream[0]], stream[1..];
    assert line + stream == next + rest;
    if stream[0] != LF {
      lines, banner := FoundIsBanner(rest, next, total + 1, taken);
    } else {
      LineOfPrints(line);
      LineTextIsContent(LineOf(line));
      if IsBanner(LineText(next)) {
        lines, banner := [], LineOf(line);
        NoLines(next);
      } else {
        var more;
        more, banner := FoundIsBanner(rest, [], total + 1, taken);
        lines := [LineOf(line)] + more;
        assert [] + rest == rest;
        LineBefore(LineOf(line), more, PrintLine(banner), taken.rest);
      }
    }
  }

  lemma ScanUnfolds(stream: Bytes, line: Bytes, total: nat, taken: Taken<Bytes>)
    requires ScanBanner(stream, line, total) == Ok(taken)
    ensures stream != [] && total + 1 <= MAX_BANNER
    ensures var next, rest := line + [stream[0]], stream[1..];
      if stream[0] != LF then ScanBanner(rest, next, total + 1) == Ok(taken)
      else if IsBanner(LineText(next)) then taken == Taken(LineText(next), rest)
      else ScanBanner(rest, [], total + 1) == Ok(taken)
  {
    hide IsBanner, LineText;
  }

  lemma NoLines(b: Bytes)
    ensures PrintLines([]) == [] && [] + b == b
  {
  }

  lemma LineBefore(l: Line, more: seq<Line>, b: Bytes, rest: Bytes)
    ensures PrintLines([l] + more) == PrintLine(l) + PrintLines(more)
    ensures PrintLine(l) + (PrintLines(more) + b + rest) == PrintLines([l] + more) + b + rest
  {
    hide PrintLine;
    assert ([l] + more)[1..] == more;
  }

  /** A banner is a line that starts with `SSH-`. */
  lemma BannerIff(s: string)
    requires IsAscii(s)
    ensures IsBanner(AsciiBytes(s)) <==> "SSH-" <= s
  {
    var b := AsciiBytes(s);
    assert forall i :: 0 <= i < |s| ==> b[i] == s[i] as int;
    if |s| >= 4 {
      assert b[..4] == [b[0], b[1], b[2], b[3]] && s[..4] == [s[0], s[1], s[2], s[3]];
    }
  }

  /** What goes out to the server is a banner of section 4.2 of RFC 4253 itself. */
  lemma ClientBannerIs()
    ensures CLIENT_BANNER == PrintLine(Line(AsciiBytes("SSH-2.0-qureddy"), true))
    ensures IsLine(Line(AsciiBytes("SSH-2.0-qureddy"), true)) && IsBanner(AsciiBytes("SSH-2.0-qureddy"))
  {
  }

  // ----- the whole greeting -----

  /** Everything a server sends up to the end of its KEXINIT packet. */
  datatype Greeting = Greeting(
    lines: seq<Line>, banner: Line, cookie: Bytes, lists: seq<seq<string>>, more: Bytes, padding: Bytes)

  predicate ValidGreeting(g: Greeting) {
    && (forall i :: 0 <= i < |g.lines| ==> IsLine(g.lines[i]) && !IsBanner(g.lines[i].content))
    && IsLine(g.banner) && IsBanner(g.banner.content)
    && |PrintLines(g.lines) + PrintLine(g.banner)| <= 8192
    && |g.cookie| == COOKIE_BYTES && |g.lists| == 6 && AreLists(g.lists)
    && LegalPadding(PrintKexinit(g.cookie, g.lists, g.more), g.padding)
  }

  function PrintGreeting(g: Greeting): Bytes
    requires ValidGreeting(g)
  {
    PrintLines(g.lines) + PrintLine(g.banner) + PrintPacket(PrintKexinit(g.cookie, g.lists, g.more), g.padding)
  }

  /** `s` is what is left of `t` when some names are struck out. */
  predicate IsSubsequence(s: seq<string>, t: seq<string>)
    decreases |t|
  {
    s == [] || (t != [] && ((s[0] == t[0] && IsSubsequence(s[1..], t[1..])) || IsSubsequence(s, t[1..])))
  }

  const MARKERS: seq<string> := ["ext-info-s", "ext-info-c", "kex-strict-s-v00@openssh.com"]

  /** Of the key exchange names only the three markers are struck out. */
  lemma {:induction false} RealKexStrikesOut(names: seq<string>)
    ensures IsSubsequence(RealKex(names), names)
    ensures forall n :: multiset(RealKex(names))[n] == if n in MARKERS then 0 else multiset(names)[n]
  {
    if names == [] {
    } else {
      RealKexStrikesOut(names[1..]);
      assert names == [names[0]] + names[1..];
      assert IsPseudoKex(names[0]) <==> names[0] in MARKERS;
      if !IsPseudoKex(names[0]) {
        assert RealKex(names)[1..] == RealKex(names[1..]);
      }
    }
  }

  /** The union of two lists: every name once, in the order of first occurrence. */
  ghost predicate IsUnion(u: seq<string>, a: seq<string>, b: seq<string>) {
    && NoDuplicates(u) && (forall n :: n in u <==> n in a || n in b)
    && (forall i, j :: 0 <= i < j < |u| ==> IndexOf(a + b, u[i]) < IndexOf(a + b, u[j]))
  }

  /** The text of a banner: its bytes, where they are ASCII. */
  predicate IsTextOf(text: string, bytes: Bytes) {
    && |text| == |bytes|
    && forall i :: 0 <= i < |bytes| ==>
         (if bytes[i] < 128 then text[i] as int == bytes[i] else text[i] == '\U{FFFD}')
  }

  /** Round trip: for any lists, any legal padding and any lines before the banner, the reader
      returns the banner's text, the lists and whether strict key exchange is among them, and
      consumes exactly the banner and the packet. */
  lemma GreetingIsRead(g: Greeting, tail: Bytes) returns (p: Posture)
    requires ValidGreeting(g)
    ensures TakeOffer(PrintGreeting(g) + tail) == Ok(Taken(p, tail))
    ensures IsTextOf(p.banner, g.banner.content)
    ensures p.strict <==> "kex-strict-s-v00@openssh.com" in g.lists[0]
    ensures p.offer.hostKeys == g.lists[1]
    ensures IsUnion(p.offer.ciphers, g.lists[2], g.lists[3]) && IsUnion(p.offer.macs, g.lists[4], g.lists[5])
    ensures IsSubsequence(p.offer.kex, g.lists[0])
    ensures forall n :: multiset(p.offer.kex)[n] == if n in MARKERS then 0 else multiset(g.lists[0])[n]
  {
    hide ScanBanner, TakePacket, ParseKexinit, PrintLine, PrintLines, PrintPacket, PrintKexinit, AreLists, RealKex,
         IsSubsequence, FirstOccurrences, NoDuplicates;
    var payload := PrintKexinit(g.cookie, g.lists, g.more);
    var packet := PrintPacket(payload, g.padding);
    assert PrintGreeting(g) + tail == PrintLines(g.lines) + PrintLine(g.banner) + (packet + tail);
    BannerIsFound(g.lines, g.banner, packet + tail, 0);
    PacketIsTaken(payload, g.padding, tail);
    KexinitIsParsed(g.cookie, g.lists, g.more);
    p := Report(g.banner.content, OfferOf(g.lists));
    UnionIsFirstOccurrences(g.lists[2], g.lists[3]);
    UnionIsFirstOccurrences(g.lists[4], g.lists[5]);
    RealKexStrikesOut(g.lists[0]);
  }

  /** The reported cipher list has no duplicates, covers both directions and keeps their order. */
  lemma UnionIsFirstOccurrences(a: seq<string>, b: seq<string>)
    ensures IsUnion(FirstOccurrences(a + b), a, b)
  {
    var u := FirstOccurrences(a + b);
    FirstOccurrencesAreDistinct(a + b);
    forall i, j | 0 <= i < j < |u|
      ensures IndexOf(a + b, u[i]) < IndexOf(a + b, u[j])
    {
      FirstOccurrencesKeepOrder(a + b, i, j);
    }
  }
}
