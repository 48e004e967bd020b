/** The text form of a string array: printed by read_array_text in src/gguf.c, read back by array_next and
    scan_quoted in src/tokenizer.c. */
module ArrayText {
  import opened ByteMap

  const QUOTE: Byte := 34
  const BACKSLASH: Byte := 92
  const COMMA: Byte := 44
  const OPEN: Byte := 91
  const CLOSE: Byte := 93

  ghost predicate NulFree(s: Bytes) {
    forall i :: 0 <= i < |s| ==> s[i] != 0
  }

  // ----- the printer -----

  function Escaped(item: Bytes): Bytes {
    if item == [] then []
    else (if item[0] == QUOTE || item[0] == BACKSLASH then [BACKSLASH, item[0]] else [item[0]]) + Escaped(item[1..])
  }

  function Quoted(item: Bytes): Bytes {
    [QUOTE] + Escaped(item) + [QUOTE]
  }

  /** Everything after an entry. */
  function Rest(items: seq<Bytes>): Bytes {
    if items == [] then [CLOSE] else [COMMA] + Quoted(items[0]) + Rest(items[1..])
  }

  function Printed(items: seq<Bytes>): Bytes {
    [OPEN] + if items == [] then [CLOSE] else Quoted(items[0]) + Rest(items[1..])
  }

  // ----- the reader -----

  predicate Separator(b: Byte) {
    b == COMMA || b == 32 || b == 10 || b == 13 || b == 9
  }

  function Skip(s: Bytes): (r: Bytes)
    ensures |r| <= |s|
  {
    if |s| > 0 && Separator(s[0]) then Skip(s[1..]) else s
  }

  /** A comma, a space, a tab, a line feed or a carriage return stands at i. */
  predicate BlankAt(s: Bytes, i: nat) {
    i < |s| && (s[i] == 44 || s[i] == 32 || s[i] == 9 || s[i] == 10 || s[i] == 13)
  }

  /** Those are skipped, all of them that stand there and nothing else. */
  lemma {:induction false} SkipsAll(s: Bytes) returns (n: nat)
    ensures n <= |s| && Skip(s) == s[n..] && !BlankAt(s, n)
    ensures forall i: nat :: i < n ==> BlankAt(s, i)
  {
    n := 0;
    if |s| > 0 && Separator(s[0]) {
      var m := SkipsAll(s[1..]);
      n := m + 1;
      forall i: nat | i < n ensures BlankAt(s, i) {
        assert i > 0 ==> BlankAt(s[1..], i - 1);
      }
    }
  }

  function HexDigit(b: Byte): nat {
    if 48 <= b <= 57 then b - 48 else if 97 <= b <= 102 then b - 87 else if 65 <= b <= 70 then b - 55 else 0
  }

  /** hex4: a character that is no digit counts as zero. */
  function Hex4(s: Bytes): (v: nat)
    ensures v < 0x10000
  {
    HexDigit(Peek(s, 0)) * 4096 + HexDigit(Peek(s, 1)) * 256 + HexDigit(Peek(s, 2)) * 16 + HexDigit(Peek(s, 3))
  }

  /** A \\u escape, s being what follows the u: its bytes, and how many bytes of s it takes. */
  function Unicode(s: Bytes): (r: (Bytes, nat))
    requires |s| >= 4
    ensures 4 <= r.1 <= |s|
  {
    var hi := Hex4(s);
    if 0xD800 <= hi <= 0xDBFF && |s| >= 10 && s[4] == BACKSLASH && s[5] == 117 && 0xDC00 <= Hex4(s[6..]) <= 0xDFFF
    then (Put(0x10000 + (hi - 0xD800) * 1024 + (Hex4(s[6..]) - 0xDC00)), 10)
    else (Put(hi), 4)
  }

  /** One step of scan_quoted on what follows the opening quote: the bytes it yields and how many it
      takes, or a stop at the closing quote or the end of the text. */
  datatype Piece = Stop(taken: nat) | More(bytes: Bytes, taken: nat)

  function ScanOne(s: Bytes): (r: Piece)
    ensures r.taken <= |s| && (r.More? ==> r.taken > 0)
  {
    if s == [] then Stop(0)
    else if s[0] == QUOTE then Stop(1)
    else if s[0] != BACKSLASH then More([s[0]], 1)
    else if |s| == 1 then Stop(1)
    else match s[1]
      case 110 => More([10], 2)
      case 114 => More([13], 2)
      case 116 => More([9], 2)
      case 117 => if |s| < 6 then Stop(2) else More(Unicode(s[2..]).0, 2 + Unicode(s[2..]).1)
      case e => More([e], 2)
  }

  /** scan_quoted past the opening quote: the unescaped bytes and what is left. */
  function Scan(s: Bytes): (r: (Bytes, Bytes))
    ensures |r.1| <= |s|
    decreases |s|
  {
    match ScanOne(s)
    case Stop(taken) => ([], s[taken..])
    case More(bytes, taken) => var (more, rest) := Scan(s[taken..]); (bytes + more, rest)
  }

  datatype Entry = None | Entry(item: Bytes, rest: Bytes)

  /** array_next. */
  function Next(s: Bytes): (e: Entry)
    ensures e.Entry? ==> |e.rest| < |s|
  {
    var a := Skip(s);
    var b := Skip(if |a| > 0 && a[0] == OPEN then a[1..] else a);
    if |b| > 0 && b[0] == QUOTE then var (item, rest) := Scan(b[1..]); Entry(item, rest) else None
  }

  function ParseAll(s: Bytes): seq<Bytes>
    decreases |s|
  {
    match Next(s) case None => [] case Entry(item, rest) => [item] + ParseAll(rest)
  }

  // ----- escapes the printer does not use -----

  function Digit(v: nat, upper: bool): Byte
    requires v < 16
  {
    if v < 10 then 48 + v else if upper then 55 + v else 87 + v
  }

  /** Four hexadecimal digits, in capitals or not. */
  function Hex(v: nat, upper: bool): (s: Bytes)
    requires v < 0x10000
    ensures |s| == 4
  {
    [Digit(v / 4096, upper), Digit(v / 256 % 16, upper), Digit(v / 16 % 16, upper), Digit(v % 16, upper)]
  }

  /** A character as an escape of section 7 of RFC 8259: a letter, itself, four hexadecimal digits, or two surrogates
      of four each. */
  function Escape(cp: nat, upper: bool): Bytes
    requires cp < 0x110000
  {
    if cp == 10 then [BACKSLASH, 110]
    else if cp == 13 then [BACKSLASH, 114]
    else if cp == 9 then [BACKSLASH, 116]
    else if cp == QUOTE || cp == BACKSLASH then [BACKSLASH, cp]
    else if cp < 0x10000 then [BACKSLASH, 117] + Hex(cp, upper)
    else [BACKSLASH, 117] + Hex(0xD800 + (cp - 0x10000) / 1024, upper) + [BACKSLASH, 117] +
         Hex(0xDC00 + cp % 1024, upper)
  }

  lemma DigitBack(v: nat)
    requires v < 16
    ensures HexDigit(Digit(v, false)) == v && HexDigit(Digit(v, true)) == v
  {
  }

  lemma HexBack(v: nat, upper: bool, s: Bytes)
    requires v < 0x10000 && |s| >= 4 && s[..4] == Hex(v, upper)
    ensures Hex4(s) == v
  {
    assert s[0] == s[..4][0] && s[1] == s[..4][1] && s[2] == s[..4][2] && s[3] == s[..4][3];
    DigitBack(v / 4096);
    DigitBack(v / 256 % 16);
    DigitBack(v / 16 % 16);
    DigitBack(v % 16);
    Nibbles(v);
  }

  lemma Nibbles(v: nat)
    ensures v == v / 16 * 16 + v % 16 && v / 256 == v / 16 / 16 && v / 4096 == v / 256 / 16
    ensures v == v / 4096 * 4096 + v / 256 % 16 * 256 + v / 16 % 16 * 16 + v % 16
  {
  }

  lemma Surrogates(cp: nat)
    requires 0x10000 <= cp < 0x110000
    ensures (cp - 0x10000) / 1024 < 1024 && 0x10000 + (cp - 0x10000) / 1024 * 1024 + cp % 1024 == cp
  {
    var x := cp - 0x10000;
    assert x == x / 1024 * 1024 + x % 1024 && x % 1024 == cp % 1024;
  }

  lemma PairBack(cp: nat, upper: bool, s: Bytes)
    requires 0x10000 <= cp < 0x110000 && |s| >= 10 && s[4] == BACKSLASH && s[5] == 117
    requires (cp - 0x10000) / 1024 < 1024
    requires s[..4] == Hex(0xD800 + (cp - 0x10000) / 1024, upper) && s[6..][..4] == Hex(0xDC00 + cp % 1024, upper)
    ensures Unicode(s) == (Put(cp), 10)
  {
    var hi, lo := 0xD800 + (cp - 0x10000) / 1024, 0xDC00 + cp % 1024;
    HexBack(hi, upper, s);
    HexBack(lo, upper, s[6..]);
    Surrogates(cp);
    JoinedBack(s, hi, lo, cp);
  }

  lemma JoinedBack(s: Bytes, hi: nat, lo: nat, cp: nat)
    requires |s| >= 10 && s[4] == BACKSLASH && s[5] == 117 && Hex4(s) == hi && Hex4(s[6..]) == lo
    requires 0xD800 <= hi <= 0xDBFF && 0xDC00 <= lo <= 0xDFFF && cp < 0x110000
    requires cp == 0x10000 + (hi - 0xD800) * 1024 + (lo - 0xDC00)
    ensures Unicode(s) == (Put(cp), 10)
  {
  }

  lemma FourBack(cp: nat, upper: bool, t: Bytes)
    requires cp < 0x10000 && !(0xD800 <= cp <= 0xDFFF) && |t| >= 4 && t[..4] == Hex(cp, upper)
    ensures Unicode(t) == (Put(cp), 4)
  {
    HexBack(cp, upper, t);
  }

  lemma UnicodeStep(s: Bytes)
    requires |s| >= 6 && s[0] == BACKSLASH && s[1] == 117
    ensures ScanOne(s) == More(Unicode(s[2..]).0, 2 + Unicode(s[2..]).1)
  {
  }

  lemma ShortBack(cp: Byte, upper: bool, after: Bytes)
    requires cp == 10 || cp == 13 || cp == 9 || cp == QUOTE || cp == BACKSLASH
    ensures ScanOne(Escape(cp, upper) + after) == More([cp], 2) && Put(cp) == [cp] && |Escape(cp, upper)| == 2
  {
  }

  lemma BehindEscape(hex: Bytes, after: Bytes)
    requires |hex| == 4
    ensures ([BACKSLASH, 117] + hex + after)[2..] == hex + after && (hex + after)[..4] == hex
  {
  }

  lemma BehindPair(hi: Bytes, lo: Bytes, after: Bytes)
    requires |hi| == 4 && |lo| == 4
    ensures var t := ([BACKSLASH, 117] + hi + [BACKSLASH, 117] + lo + after)[2..];
            |t| >= 10 && t[..4] == hi && t[4] == BACKSLASH && t[5] == 117 && t[6..][..4] == lo
  {
  }

  /** Every character's escape is read back as its UTF-8. */
  lemma EscapeBack(cp: nat, upper: bool, after: Bytes)
    requires cp < 0x110000 && !(0xD800 <= cp <= 0xDFFF)
    ensures ScanOne(Escape(cp, upper) + after) == More(Put(cp), |Escape(cp, upper)|)
  {
    if cp == 10 || cp == 13 || cp == 9 || cp == QUOTE || cp == BACKSLASH {
      ShortBack(cp, upper, after);
    } else {
      var s := Escape(cp, upper) + after;
      var t := s[2..];
      UnicodeStep(s);
      if cp < 0x10000 {
        BehindEscape(Hex(cp, upper), after);
        FourBack(cp, upper, t);
      } else {
        Surrogates(cp);
        var hi, lo := Hex(0xD800 + (cp - 0x10000) / 1024, upper), Hex(0xDC00 + cp % 1024, upper);
        BehindPair(hi, lo, after);
        PairBack(cp, upper, t);
      }
    }
  }

  // ----- printing and reading undo each other -----

  /** Reading an escaped item up to its closing quote. */
  lemma {:induction false} ScanEscaped(item: Bytes, after: Bytes)
    requires NulFree(item)
    ensures Scan(Escaped(item) + ([QUOTE] + after)) == (item, after)
  {
    var s := Escaped(item) + ([QUOTE] + after);
    if item == [] {
      EmptyAppends([QUOTE] + after);
      assert s[1..] == after;
    } else {
      var head := if item[0] == QUOTE || item[0] == BACKSLASH then [BACKSLASH, item[0]] else [item[0]];
      AppendAssociates(head, Escaped(item[1..]), [QUOTE] + after);
      ScanEscaped(item[1..], after);
      HeadScans(item[0], head, Escaped(item[1..]) + ([QUOTE] + after));
      assert [item[0]] + item[1..] == item;
    }
  }

  lemma HeadScans(b: Byte, head: Bytes, rest: Bytes)
    requires head == if b == QUOTE || b == BACKSLASH then [BACKSLASH, b] else [b]
    ensures ScanOne(head + rest) == More([b], |head|) && (head + rest)[|head|..] == rest
  {
  }

  lemma SkipNone(s: Bytes)
    requires |s| > 0 && !Separator(s[0])
    ensures Skip(s) == s
  {
  }

  /** Reading an entry, with what comes before its quote. */
  lemma NextQuoted(lead: Bytes, item: Bytes, after: Bytes)
    requires NulFree(item) && (lead == [OPEN] || lead == [COMMA])
    ensures Next(lead + (Quoted(item) + after)) == Entry(item, after)
  {
    var q := Quoted(item) + after;
    QuotedApart(item, after);
    assert (lead + q)[1..] == q && (lead + q)[0] == lead[0];
    SkipNone(q);
    if lead == [OPEN] {
      SkipNone(lead + q);
    }
    ScanEscaped(item, after);
  }

  lemma QuotedApart(item: Bytes, after: Bytes)
    ensures Quoted(item) + after == [QUOTE] + (Escaped(item) + ([QUOTE] + after))
    ensures (Quoted(item) + after)[0] == QUOTE && (Quoted(item) + after)[1..] == Escaped(item) + ([QUOTE] + after)
  {
  }

  ghost predicate AllNulFree(items: seq<Bytes>) {
    forall i :: 0 <= i < |items| ==> NulFree(items[i])
  }

  lemma NextClose(lead: Bytes)
    requires lead == [] || lead == [OPEN]
    ensures Next(lead + [CLOSE]) == None
  {
    SkipNone([CLOSE]);
    if lead == [OPEN] {
      SkipNone(lead + [CLOSE]);
      assert (lead + [CLOSE])[1..] == [CLOSE];
    } else {
      EmptyAppends([CLOSE]);
    }
  }

  lemma {:induction false} ParseRest(items: seq<Bytes>)
    requires AllNulFree(items)
    ensures ParseAll(Rest(items)) == items
  {
    if items == [] {
      NextClose([]);
      EmptyAppends([CLOSE]);
    } else {
      NextQuoted([COMMA], items[0], Rest(items[1..]));
      AppendAssociates([COMMA], Quoted(items[0]), Rest(items[1..]));
      ParseRest(items[1..]);
    }
  }

  /** Reading back what was printed gives the list, for every list of NUL-free strings. */
  lemma ParsePrinted(items: seq<Bytes>)
    requires AllNulFree(items)
    ensures ParseAll(Printed(items)) == items
  {
    if items == [] {
      NextClose([OPEN]);
    } else {
      NextQuoted([OPEN], items[0], Rest(items[1..]));
      ParseRest(items[1..]);
    }
  }

  // ----- the loops -----

  /** What remains to be printed before entry i. */
  ghost function From(items: seq<Bytes>, i: nat): Bytes
    requires i <= |items|
  {
    if i == 0 && |items| > 0 then Quoted(items[0]) + Rest(items[1..]) else Rest(items[i..])
  }

  lemma FromStep(items: seq<Bytes>, i: nat, before: Bytes)
    requires i < |items|
    ensures before + From(items, i) == before + (if i > 0 then [COMMA] else []) + Quoted(items[i]) + From(items, i + 1)
  {
    assert items[i..][1..] == items[i + 1..];
    var lead := if i > 0 then [COMMA] else [];
    AppendAssociates(lead, Quoted(items[i]), From(items, i + 1));
    EmptyAppends(Quoted(items[i]));
    AppendAssociates(before, lead + Quoted(items[i]), From(items, i + 1));
    AppendAssociates(before, lead, Quoted(items[i]));
  }

  /** The quoted branch of read_array_text. */
  method PrintStrings(items: seq<Bytes>) returns (text: Bytes)
    ensures text == Printed(items)
  {
    text := [OPEN];
    for i := 0 to |items|
      invariant text + From(items, i) == Printed(items)
    {
      FromStep(items, i, text);
      EmptyAppends(text);
      if i > 0 {
        text := text + [COMMA];
      }
      text := PrintQuoted(items[i], text);
    }
    assert items[|items|..] == [];
    text := text + [CLOSE];
  }

  method PrintQuoted(item: Bytes, before: Bytes) returns (text: Bytes)
    ensures text == before + Quoted(item)
  {
    text := before + [QUOTE];
    for j := 0 to |item|
      invariant text + Escaped(item[j..]) == before + [QUOTE] + Escaped(item)
    {
      assert item[j..][1..] == item[j + 1..];
      var c := item[j];
      if c == QUOTE || c == BACKSLASH {
        AppendAssociates(text, [BACKSLASH, c], Escaped(item[j + 1..]));
        assert text + [BACKSLASH] + [c] == text + [BACKSLASH, c];
        text := text + [BACKSLASH];
      } else {
        AppendAssociates(text, [c], Escaped(item[j + 1..]));
      }
      text := text + [c];
    }
    assert item[|item|..] == [];
    EmptyAppends(text);
    text := text + [QUOTE];
  }

  /** One entry's copy pass keeps what fits of what the measure pass counts. */
  predicate Copied(buffer: Bytes, content: Bytes, cap: nat) {
    buffer == if |content| <= cap then content else content[..cap]
  }

  function Fill(buffer: Bytes, bytes: Bytes, cap: nat): Bytes {
    if |buffer| < cap then buffer + bytes[..if |bytes| < cap - |buffer| then |bytes| else cap - |buffer|] else buffer
  }

  lemma FillCopies(buffer: Bytes, content: Bytes, bytes: Bytes, cap: nat)
    requires Copied(buffer, content, cap)
    ensures Copied(Fill(buffer, bytes, cap), content + bytes, cap)
  {
  }

  /** The scan after p bytes: the content so far, its length, and what of it fits. */
  ghost predicate Scanning(text: Bytes, p: nat, content: Bytes, n: nat, buffer: Bytes, cap: nat) {
    p <= |text| && Scan(text) == (content + Scan(text[p..]).0, Scan(text[p..]).1) && n == |content| &&
      Copied(buffer, content, cap)
  }

  lemma ScanMore(text: Bytes, p: nat, content: Bytes, n: nat, buffer: Bytes, cap: nat, step: Piece, p': nat,
                 content': Bytes, n': nat, buffer': Bytes)
    requires Scanning(text, p, content, n, buffer, cap) && step == ScanOne(text[p..]) && step.More?
    requires p' == p + step.taken && content' == content + step.bytes && n' == n + |step.bytes|
    requires buffer' == Fill(buffer, step.bytes, cap)
    ensures p < p' && Scanning(text, p', content', n', buffer', cap)
  {
    assert text[p..][step.taken..] == text[p'..];
    FillCopies(buffer, content, step.bytes, cap);
    AppendAssociates(content, step.bytes, Scan(text[p'..]).0);
  }

  lemma ScanStops(text: Bytes, p: nat, content: Bytes, n: nat, buffer: Bytes, cap: nat, step: Piece)
    requires Scanning(text, p, content, n, buffer, cap) && step == ScanOne(text[p..]) && step.Stop?
    ensures Scan(text) == (content, text[p + step.taken..])
  {
    assert text[p..][step.taken..] == text[p + step.taken..];
    EmptyAppends(content);
  }

  /** scan_quoted on the text after the opening quote: where it stops, the unescaped length, and what of it
      fits a buffer of cap bytes; cap is 0 when only measuring. */
  method ScanQuoted(text: Bytes, cap: nat) returns (p: nat, n: nat, buffer: Bytes)
    ensures p <= |text| && text[p..] == Scan(text).1 && n == |Scan(text).0| && Copied(buffer, Scan(text).0, cap)
  {
    p, n, buffer := 0, 0, [];
    ghost var content: Bytes := [];
    EmptyAppends(Scan(text).0);
    assert text[0..] == text;
    while true
      invariant Scanning(text, p, content, n, buffer, cap)
      decreases |text| - p
    {
      var step := ScanOne(text[p..]);
      if step.Stop? {
        ScanStops(text, p, content, n, buffer, cap, step);
        return p + step.taken, n, buffer;
      }
      var p', n', buffer' := p + step.taken, n + |step.bytes|, Fill(buffer, step.bytes, cap);
      ghost var content' := content + step.bytes;
      ScanMore(text, p, content, n, buffer, cap, step, p', content', n', buffer');
      p, n, buffer, content := p', n', buffer', content';
    }
  }

  method SkipSeparators(text: Bytes, p: nat) returns (q: nat)
    requires p <= |text|
    ensures p <= q <= |text| && text[q..] == Skip(text[p..])
  {
    q := p;
    while Separator(Peek(text, q))
      invariant p <= q <= |text| && Skip(text[q..]) == Skip(text[p..])
      decreases |text| - q
    {
      assert text[q..][1..] == text[q + 1..];
      q := q + 1;
    }
  }

  /** array_next at p; without advance the cursor stays, and a second call sees the same entry. */
  method ArrayNext(text: Bytes, p: nat, cap: nat, advance: bool) returns (found: bool, p': nat, n: nat, buffer: Bytes)
    requires p <= |text|
    ensures found == Next(text[p..]).Entry? && p' <= |text| && (!advance ==> p' == p)
    ensures found ==> n == |Next(text[p..]).item| && Copied(buffer, Next(text[p..]).item, cap)
    ensures found && advance ==> text[p'..] == Next(text[p..]).rest
  {
    var q := SkipSeparators(text, p);
    var r := if Peek(text, q) == OPEN then q + 1 else q;
    assert text[q..] != [] ==> text[q..][0] == text[q] && text[q..][1..] == text[q + 1..];
    r := SkipSeparators(text, r);
    if Peek(text, r) != QUOTE {
      return false, if advance then r else p, 0, [];
    }
    assert text[r..][1..] == text[r + 1..];
    var taken, len, out := ScanQuoted(text[r + 1..], cap);
    assert text[r + 1..][taken..] == text[r + 1 + taken..];
    return true, if advance then r + 1 + taken else p, len, out;
  }

  /** The two passes over the token list: count the entries, then measure and copy each. */
  method LoadStrings(text: Bytes) returns (items: seq<Bytes>)
    ensures items == ParseAll(text)
  {
    var count := CountEntries(text);
    items := [];
    var p := 0;
    assert text[0..] == text;
    EmptyAppends(ParseAll(text));
    while |items| < count
      invariant p <= |text| && count == |ParseAll(text)| && items + ParseAll(text[p..]) == ParseAll(text)
      decreases count - |items|
    {
      var found, p', need, none := ArrayNext(text, p, 0, false);
      if !found {
        break;
      }
      ghost var rest := ParseAll(text[p..]);
      var again, q, n, item := ArrayNext(text, p, need + 1, true);
      AppendAssociates(items, [item], ParseAll(text[q..]));
      items := items + [item];
      p := q;
    }
    EmptyAppends(items);
  }

  method CountEntries(text: Bytes) returns (count: nat)
    ensures count == |ParseAll(text)|
  {
    count := 0;
    var p := 0;
    assert text[0..] == text;
    while true
      invariant p <= |text| && count + |ParseAll(text[p..])| == |ParseAll(text)|
      decreases |text| - p
    {
      var found, q, n, scratch := ArrayNext(text, p, 1024, true);
      if !found {
        return;
      }
      count := count + 1;
      p := q;
    }
  }
}
