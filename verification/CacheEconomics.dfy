/** Modeled prompt-cache economics of a request stream: how a request is
    serialized, what two requests share, and where the compactions fall. */
module CacheEconomics {
  import opened Prelude

  // ---- Text and its UTF-8 bytes

  function Utf8Width(c: char): nat {
    if c <= '\U{7F}' then 1
    else if c <= '\U{7FF}' then 2
    else if c <= '\U{FFFF}' then 3
    else 4
  }

  /** The number of code points that fit in an encoding of this many bytes, RFC 3629
      section 3: seven bits in one byte; in more, six in each byte after the first
      and what the length mark of the first leaves over. */
  function Capacity(width: nat): nat
    requires 1 <= width <= 4
  {
    match width
    case 1 => 0x80
    case 2 => 0x20 * 0x40
    case 3 => 0x10 * 0x40 * 0x40
    case 4 => 0x08 * 0x40 * 0x40 * 0x40
  }

  /** A character takes the least number of bytes that it fits in. */
  lemma WidthIsTheLeastThatFits(c: char, width: nat)
    requires 1 <= width <= 4
    ensures 1 <= Utf8Width(c) <= 4
    ensures c as int < Capacity(width) <==> Utf8Width(c) <= width
  {
  }

  function Utf8Length(s: string): nat {
    if s == [] then 0 else Utf8Width(s[0]) + Utf8Length(s[1..])
  }

  lemma {:induction false} Utf8LengthAppend(a: string, b: string)
    ensures Utf8Length(a + b) == Utf8Length(a) + Utf8Length(b)
  {
    if a == [] {
      assert a + b == b;
    } else {
      assert (a + b)[1..] == a[1..] + b;
      Utf8LengthAppend(a[1..], b);
    }
  }

  /** Splitting text at a byte offset: possible only between two characters. */
  function SplitAtByte(s: string, offset: nat): Option<(string, string)> {
    if offset == 0 then Some(([], s))
    else if s == [] || offset < Utf8Width(s[0]) then None
    else match SplitAtByte(s[1..], offset - Utf8Width(s[0]))
      case None => None
      case Some((front, back)) => Some(([s[0]] + front, back))
  }

  /** A fourth of the bytes, rounded up. */
  function EstTokens(s: string): nat {
    (Utf8Length(s) + 3) / 4
  }

  function CommonPrefix(a: string, b: string): (p: string)
    ensures p <= a && p <= b
  {
    if a == [] || b == [] || a[0] != b[0] then [] else [a[0]] + CommonPrefix(a[1..], b[1..])
  }

  function CommonPrefixBytes(a: string, b: string): nat {
    Utf8Length(CommonPrefix(a, b))
  }

  /** A text begins both exactly when it begins their common prefix. */
  lemma {:induction false} CommonPrefixIsLongest(a: string, b: string, p: string)
    ensures p <= a && p <= b <==> p <= CommonPrefix(a, b)
  {
    if a != [] && b != [] && a[0] == b[0] {
      var tail := if p == [] then [] else p[1..];
      CommonPrefixIsLongest(a[1..], b[1..], tail);
      if p <= a && p <= b && p != [] {
        assert tail <= a[1..] && tail <= b[1..];
        assert p == [a[0]] + tail;
      }
    }
  }

  lemma {:induction false} SplitAfterPrefix(p: string, s: string)
    requires p <= s
    ensures SplitAtByte(s, Utf8Length(p)) == Some((p, s[|p|..]))
  {
    if p != [] {
      assert p[1..] <= s[1..];
      SplitAfterPrefix(p[1..], s[1..]);
      assert p == [s[0]] + p[1..];
      assert s[1..][|p[1..]|..] == s[|p|..];
    }
  }

  /** The byte count of the common prefix is a character boundary of both texts:
      slicing either one there yields exactly the shared characters and the rest. */
  lemma PrefixBytesAreABoundary(a: string, b: string)
    ensures var p := CommonPrefix(a, b);
            && SplitAtByte(a, CommonPrefixBytes(a, b)) == Some((p, a[|p|..]))
            && SplitAtByte(b, CommonPrefixBytes(a, b)) == Some((p, b[|p|..]))
  {
    SplitAfterPrefix(CommonPrefix(a, b), a);
    SplitAfterPrefix(CommonPrefix(a, b), b);
  }

  // ---- Splitting a request into cache reads and writes

  /** Estimated (read, write) tokens of one request against its predecessor. */
  function DiffPayloads(pre: string, post: string): (nat, nat) {
    var p := CommonPrefix(pre, post);
    (EstTokens(p), EstTokens(post[|p|..]))
  }

  /** Reads and writes add up to the request, or to one token more; the extra
      token appears exactly when both parts end in a partial token and the two
      fit into one. */
  lemma SplitCostsAtMostOneToken(pre: string, post: string)
    ensures var (read, write) := DiffPayloads(pre, post);
            var p := CommonPrefix(pre, post);
            var r, w := Utf8Length(p) % 4, (Utf8Length(post) - Utf8Length(p)) % 4;
            read + write == EstTokens(post) + if r > 0 && w > 0 && r + w <= 4 then 1 else 0
  {
    var p := CommonPrefix(pre, post);
    assert post == p + post[|p|..];
    Utf8LengthAppend(p, post[|p|..]);
    FourthsRoundUp(Utf8Length(p), Utf8Length(post[|p|..]));
  }

  lemma FourthsRoundUp(m: nat, n: nat)
    ensures var r, w := m % 4, n % 4;
            (m + 3) / 4 + (n + 3) / 4 == (m + n + 3) / 4 + if r > 0 && w > 0 && r + w <= 4 then 1 else 0
  {
  }

  // ---- Serialized requests

  datatype Message = Message(role: string, content: string)

  const UNIT: char := '\U{1F}'

  const RECORD: char := '\U{1E}'

  function SerializeMessage(m: Message): string {
    m.role + [UNIT] + m.content
  }

  function Serialize(ms: seq<Message>): string {
    if ms == [] then []
    else if |ms| == 1 then SerializeMessage(ms[0])
    else SerializeMessage(ms[0]) + [RECORD] + Serialize(ms[1..])
  }

  /** The payload of messages: the role, a unit separator and the content of each,
      with a record separator before every message but the first. */
  lemma PayloadsAreRecords(ms: seq<Message>, m: Message)
    ensures Serialize([m]) == m.role + ['\U{1F}'] + m.content
    ensures Serialize([]) == []
    ensures ms != [] ==> Serialize(ms + [m]) == Serialize(ms) + ['\U{1E}'] + m.role + ['\U{1F}'] + m.content
  {
    SerializeAppend(ms, [m]);
    if ms != [] {
      assert Serialize(ms) + [RECORD] + (m.role + [UNIT] + m.content) ==
             Serialize(ms) + [RECORD] + m.role + [UNIT] + m.content;
    }
  }

  predicate SeparatorFree(m: Message) {
    UNIT !in m.role && UNIT !in m.content && RECORD !in m.role && RECORD !in m.content
  }

  predicate AllSeparatorFree(ms: seq<Message>) {
    forall i :: 0 <= i < |ms| ==> SeparatorFree(ms[i])
  }

  lemma {:induction false} SerializeAppend(ms: seq<Message>, more: seq<Message>)
    ensures Serialize(ms + more) ==
            if ms == [] then Serialize(more)
            else if more == [] then Serialize(ms)
            else Serialize(ms) + [RECORD] + Serialize(more)
  {
    if ms == [] {
      assert ms + more == more;
    } else if more == [] {
      assert ms + more == ms;
    } else {
      assert (ms + more)[1..] == ms[1..] + more;
      SerializeAppend(ms[1..], more);
    }
  }

  /** A request that only appends messages keeps the whole previous payload as
      its common prefix, so all of it is read from the cache. */
  lemma AppendOnlyKeepsTheWholePayload(ms: seq<Message>, more: seq<Message>)
    ensures CommonPrefix(Serialize(ms), Serialize(ms + more)) == Serialize(ms)
    ensures DiffPayloads(Serialize(ms), Serialize(ms + more)).0 == EstTokens(Serialize(ms))
  {
    SerializeAppend(ms, more);
    CommonPrefixIsLongest(Serialize(ms), Serialize(ms + more), Serialize(ms));
  }

  // Text without a separator, up to the first one.
  lemma {:induction false} FieldEndsAtSeparator(a: string, b: string, x: string, y: string)
    requires UNIT !in a && RECORD !in a && UNIT !in b && RECORD !in b
    requires x != [] && x[0] in [UNIT, RECORD]
    requires y == [] || y[0] in [UNIT, RECORD]
    requires a + x <= b + y
    ensures a == b && x <= y
  {
    HeadOf(a, x);
    HeadOf(b, y);
    if a == [] {
      assert a + x == x && b + y == y;
    } else {
      assert (a + x)[1..] == a[1..] + x && (b + y)[1..] == b[1..] + y;
      FieldEndsAtSeparator(a[1..], b[1..], x, y);
      assert a == [a[0]] + a[1..] && b == [b[0]] + b[1..];
    }
  }

  lemma HeadOf(a: string, x: string)
    requires a + x != []
    ensures (a + x)[0] == if a != [] then a[0] else x[0]
  {
  }

  lemma MessageEndsAtRecord(m: Message, n: Message, x: string, y: string)
    requires SeparatorFree(m) && SeparatorFree(n)
    requires x != [] && x[0] == RECORD && (y == [] || y[0] == RECORD)
    requires SerializeMessage(m) + x <= SerializeMessage(n) + y
    ensures m == n && x <= y
  {
    var mx, ny := [UNIT] + m.content + x, [UNIT] + n.content + y;
    assert SerializeMessage(m) + x == m.role + mx && SerializeMessage(n) + y == n.role + ny;
    FieldEndsAtSeparator(m.role, n.role, mx, ny);
    assert mx[1..] == m.content + x && ny[1..] == n.content + y;
    FieldEndsAtSeparator(m.content, n.content, x, y);
  }

  // What follows the first message of a payload that ends in a separator.
  function AfterFirst(ms: seq<Message>): string
    requires ms != []
  {
    if |ms| == 1 then [RECORD] else [RECORD] + Serialize(ms[1..]) + [RECORD]
  }

  lemma FirstAndRest(ms: seq<Message>)
    requires ms != []
    ensures Serialize(ms) + [RECORD] == SerializeMessage(ms[0]) + AfterFirst(ms)
  {
  }

  lemma FirstIsShared(ms: seq<Message>, ns: seq<Message>)
    requires AllSeparatorFree(ms) && AllSeparatorFree(ns) && ms != [] && ns != []
    requires Serialize(ms) + [RECORD] <= Serialize(ns) + [RECORD]
    ensures ms[0] == ns[0] && AfterFirst(ms) <= AfterFirst(ns)
  {
    FirstAndRest(ms);
    FirstAndRest(ns);
    MessageEndsAtRecord(ms[0], ns[0], AfterFirst(ms), AfterFirst(ns));
  }

  lemma AfterFirstIsTheRest(ms: seq<Message>)
    requires ms != []
    ensures |ms| > 1 ==> AfterFirst(ms)[1..] == Serialize(ms[1..]) + [RECORD] && |AfterFirst(ms)| > 1
    ensures |ms| == 1 ==> |AfterFirst(ms)| == 1
  {
    if |ms| > 1 {
      SerializedIsNonEmpty(ms[1..]);
      DropSeparator(Serialize(ms[1..]));
    }
  }

  lemma DropSeparator(s: string)
    ensures ([RECORD] + s + [RECORD])[1..] == s + [RECORD]
  {
    assert [RECORD] + s + [RECORD] == [RECORD] + (s + [RECORD]);
  }

  lemma {:induction false} SharedRecordsGiveSharedMessages(ms: seq<Message>, ns: seq<Message>)
    requires AllSeparatorFree(ms) && AllSeparatorFree(ns) && ms != [] && ns != []
    requires Serialize(ms) + [RECORD] <= Serialize(ns) + [RECORD]
    ensures ms <= ns
  {
    FirstIsShared(ms, ns);
    assert ms == [ms[0]] + ms[1..] && ns == [ns[0]] + ns[1..];
    if |ms| > 1 {
      AfterFirstIsTheRest(ms);
      AfterFirstIsTheRest(ns);
      assert AfterFirst(ms)[1..] <= AfterFirst(ns)[1..];
      SharedRecordsGiveSharedMessages(ms[1..], ns[1..]);
    }
  }

  /** For separator-free messages the shared text cannot end at a record boundary
      by accident: a payload and the separator after it begin another payload and
      its separator exactly when the second request is the first with messages
      appended. */
  lemma SharedRecordsAreSharedMessages(ms: seq<Message>, ns: seq<Message>)
    requires AllSeparatorFree(ms) && AllSeparatorFree(ns) && ms != [] && ns != []
    ensures Serialize(ms) + [RECORD] <= Serialize(ns) + [RECORD] <==> ms <= ns
  {
    if ms <= ns {
      SerializeAppend(ms, ns[|ms|..]);
      assert ns == ms + ns[|ms|..];
    }
    if Serialize(ms) + [RECORD] <= Serialize(ns) + [RECORD] {
      SharedRecordsGiveSharedMessages(ms, ns);
    }
  }

  /** Separators in a text: in a payload, the messages that are complete. */
  function Records(s: string): nat {
    if s == [] then 0 else (if s[0] == RECORD then 1 else 0) + Records(s[1..])
  }

  lemma {:induction false} RecordsAppend(a: string, b: string)
    ensures Records(a + b) == Records(a) + Records(b)
  {
    if a == [] {
      assert a + b == b;
    } else {
      assert (a + b)[1..] == a[1..] + b;
      RecordsAppend(a[1..], b);
    }
  }

  lemma {:induction false} NoRecords(s: string)
    ensures Records(s) == 0 <==> RECORD !in s
  {
    if s != [] {
      NoRecords(s[1..]);
      assert s == [s[0]] + s[1..];
    }
  }

  lemma {:induction false} CommonPrefixAfter(p: string, a: string, b: string)
    ensures CommonPrefix(p + a, p + b) == p + CommonPrefix(a, b)
  {
    if p == [] {
      assert p + a == a && p + b == b;
    } else {
      assert (p + a)[1..] == p[1..] + a && (p + b)[1..] == p[1..] + b;
      CommonPrefixAfter(p[1..], a, b);
    }
  }

  // A text that has a separator has all before the first one, and that separator.
  lemma {:induction false} UpToFirstRecord(x: string, rest: string, p: string)
    requires RECORD !in x && RECORD in p && p <= x + rest
    requires rest == [] || rest[0] == RECORD
    ensures rest != [] && x + [RECORD] <= p
  {
    HeadOf(x, rest);
    if x == [] {
      assert x + rest == rest;
    } else {
      assert (x + rest)[1..] == x[1..] + rest;
      assert p == [p[0]] + p[1..];
      UpToFirstRecord(x[1..], rest, p[1..]);
      assert x == [x[0]] + x[1..];
    }
  }

  // What follows the first message of a payload.
  function Rest(ms: seq<Message>): string {
    if |ms| <= 1 then [] else [RECORD] + Serialize(ms[1..])
  }

  lemma SerializeFirst(ms: seq<Message>)
    requires ms != []
    ensures Serialize(ms) == SerializeMessage(ms[0]) + Rest(ms)
  {
    assert SerializeMessage(ms[0]) + [] == SerializeMessage(ms[0]);
  }

  // Payloads that share a separator share their first message.
  lemma SharedRecordSharesFirst(ms: seq<Message>, ns: seq<Message>)
    requires AllSeparatorFree(ms) && AllSeparatorFree(ns) && ms != [] && ns != []
    requires RECORD in CommonPrefix(Serialize(ms), Serialize(ns))
    ensures ms[0] == ns[0] && |ms| > 1 && |ns| > 1
  {
    var p := CommonPrefix(Serialize(ms), Serialize(ns));
    SerializeFirst(ms);
    SerializeFirst(ns);
    UpToFirstRecord(SerializeMessage(ms[0]), Rest(ms), p);
    UpToFirstRecord(SerializeMessage(ns[0]), Rest(ns), p);
    assert SerializeMessage(ms[0]) + [RECORD] <= SerializeMessage(ns[0]) + Rest(ns);
    MessageEndsAtRecord(ms[0], ns[0], [RECORD], Rest(ns));
  }

  lemma SharedFirstSharesRecord(ms: seq<Message>, ns: seq<Message>)
    requires AllSeparatorFree(ms) && |ms| > 1 && |ns| > 1 && ms[0] == ns[0]
    ensures Records(CommonPrefix(Serialize(ms), Serialize(ns))) ==
            1 + Records(CommonPrefix(Serialize(ms[1..]), Serialize(ns[1..])))
  {
    var first := SerializeMessage(ms[0]) + [RECORD];
    CommonPrefixAfter(first, Serialize(ms[1..]), Serialize(ns[1..]));
    assert Serialize(ms) == first + Serialize(ms[1..]) && Serialize(ns) == first + Serialize(ns[1..]);
    RecordsAppend(first, CommonPrefix(Serialize(ms[1..]), Serialize(ns[1..])));
    RecordsAppend(SerializeMessage(ms[0]), [RECORD]);
    NoRecords(SerializeMessage(ms[0]));
    assert [RECORD][1..] == [];
  }

  /** The messages two requests complete together. */
  function SharedRecords(ms: seq<Message>, ns: seq<Message>): nat {
    Records(CommonPrefix(Serialize(ms), Serialize(ns)))
  }

  lemma SharedRecordsStep(ms: seq<Message>, ns: seq<Message>)
    requires AllSeparatorFree(ms) && AllSeparatorFree(ns) && |ms| > 1 && |ns| > 1
    ensures SharedRecords(ms, ns) == if ms[0] == ns[0] then 1 + SharedRecords(ms[1..], ns[1..]) else 0
  {
    if ms[0] == ns[0] {
      SharedFirstSharesRecord(ms, ns);
    } else {
      var p := CommonPrefix(Serialize(ms), Serialize(ns));
      NoRecords(p);
      if RECORD in p {
        SharedRecordSharesFirst(ms, ns);
      }
    }
  }

  lemma FrontsAgree<T>(a: seq<T>, b: seq<T>, n: nat)
    requires 0 < n <= |a| && n <= |b|
    ensures a[..n] == b[..n] <==> a[0] == b[0] && a[1..][..n - 1] == b[1..][..n - 1]
  {
    assert a[..n] == [a[0]] + a[1..][..n - 1] && b[..n] == [b[0]] + b[1..][..n - 1];
  }

  /** The shared text cannot span a message boundary by accident: for
      separator-free messages, the records completed within the common prefix of
      two payloads are exactly the leading messages the requests share, counting
      those that a separator follows in both. */
  lemma {:induction false} CompleteRecordsAreSharedMessages(ms: seq<Message>, ns: seq<Message>, n: nat)
    requires AllSeparatorFree(ms) && AllSeparatorFree(ns) && n < |ms| && n < |ns|
    ensures n <= SharedRecords(ms, ns) <==> ms[..n] == ns[..n]
    decreases n
  {
    if n > 0 {
      SharedRecordsStep(ms, ns);
      CompleteRecordsAreSharedMessages(ms[1..], ns[1..], n - 1);
      FrontsAgree(ms, ns, n);
    }
  }

  /** And never all messages of the shorter request, whose last one no separator ends. */
  lemma {:induction false} LastMessagesAreIncomplete(ms: seq<Message>, ns: seq<Message>)
    requires AllSeparatorFree(ms) && AllSeparatorFree(ns) && ms != [] && ns != []
    ensures SharedRecords(ms, ns) < Min(|ms|, |ns|)
  {
    var p := CommonPrefix(Serialize(ms), Serialize(ns));
    NoRecords(p);
    if RECORD in p {
      SharedRecordSharesFirst(ms, ns);
      SharedFirstSharesRecord(ms, ns);
      LastMessagesAreIncomplete(ms[1..], ns[1..]);
    }
  }

  lemma SerializedIsNonEmpty(ms: seq<Message>)
    requires ms != []
    ensures Serialize(ms) != []
  {
    assert SerializeMessage(ms[0])[|ms[0].role|] == UNIT;
  }

  /** In particular separator-free requests with equal payloads are equal. */
  lemma SerializeIsInjective(ms: seq<Message>, ns: seq<Message>)
    requires AllSeparatorFree(ms) && AllSeparatorFree(ns) && Serialize(ms) == Serialize(ns)
    ensures ms == ns
  {
    if ms != [] { SerializedIsNonEmpty(ms); }
    if ns != [] { SerializedIsNonEmpty(ns); }
    if ms != [] && ns != [] {
      SharedRecordsAreSharedMessages(ms, ns);
      SharedRecordsAreSharedMessages(ns, ms);
    }
  }

  // ---- The scanner

  datatype Request = Request(isSummary: bool, payload: string)

  datatype CacheGen = CacheGen(generation: nat, read: nat, write: nat, pre: nat, post: nat)

  /** Summary requests so far: the ordinal of the latest compaction. */
  function Summaries(rs: seq<Request>): nat {
    if rs == [] then 0 else Summaries(rs[..|rs| - 1]) + if rs[|rs| - 1].isSummary then 1 else 0
  }

  /** The last normal request, or the baseline when there is none. */
  function LastNormal(rs: seq<Request>, baseline: Option<string>): Option<string> {
    if rs == [] then baseline
    else if rs[|rs| - 1].isSummary then LastNormal(rs[..|rs| - 1], baseline)
    else Some(rs[|rs| - 1].payload)
  }

  /** Request i is the first normal one after a compaction that something
      normal, or the baseline, came before. */
  predicate Boundary(rs: seq<Request>, baseline: Option<string>, i: nat)
    requires i < |rs|
  {
    i > 0 && rs[i - 1].isSummary && !rs[i].isSummary && LastNormal(rs[..i], baseline).Some?
  }

  function GenAt(rs: seq<Request>, baseline: Option<string>, i: nat): CacheGen
    requires i < |rs| && Boundary(rs, baseline, i)
  {
    var pre := LastNormal(rs[..i], baseline).value;
    var (read, write) := DiffPayloads(pre, rs[i].payload);
    CacheGen(Summaries(rs[..i]), read, write, EstTokens(pre), EstTokens(rs[i].payload))
  }

  /** A fourth of the bytes, rounded up: the least count of four-byte tokens that
      covers them. */
  predicate Covers(tokens: nat, bytes: nat) {
    4 * tokens >= bytes && 4 * tokens < bytes + 4
  }

  /** What an entry says of the payload before its compaction and the one after: the
      tokens read cover the bytes they share, the tokens written the rest of the
      later one, and the two totals each payload. */
  predicate Tells(g: CacheGen, pre: string, post: string) {
    var p := CommonPrefix(pre, post);
    && Covers(g.read, Utf8Length(p)) && Covers(g.write, Utf8Length(post[|p|..]))
    && Covers(g.pre, Utf8Length(pre)) && Covers(g.post, Utf8Length(post))
  }

  /** The first normal request after a compaction, with a payload to compare. */
  predicate Follows(rs: seq<Request>, baseline: Option<string>, i: nat) {
    && 0 < i < |rs| && rs[i - 1].isSummary && !rs[i].isSummary
    && (baseline.Some? || exists j :: 0 <= j < i && !rs[j].isSummary)
  }

  /** The payload compared with: that of the last normal request before, or else the
      baseline. */
  predicate ComparedWith(rs: seq<Request>, baseline: Option<string>, i: nat, pre: string)
    requires i <= |rs|
  {
    || (baseline == Some(pre) && forall j :: 0 <= j < i ==> rs[j].isSummary)
    || (exists j :: 0 <= j < i && !rs[j].isSummary && rs[j].payload == pre && forall k :: j < k < i ==> rs[k].isSummary)
  }

  lemma LastNormalIsComparedWith(rs: seq<Request>, baseline: Option<string>, i: nat)
    requires i <= |rs|
    ensures LastNormal(rs[..i], baseline).Some? <==> baseline.Some? || exists j :: 0 <= j < i && !rs[j].isSummary
    ensures LastNormal(rs[..i], baseline).Some? ==> ComparedWith(rs, baseline, i, LastNormal(rs[..i], baseline).value)
  {
    LastNormalIsTheLast(rs[..i], baseline);
    var last := LastNormal(rs[..i], baseline);
    if j :| 0 <= j < i && !rs[j].isSummary {
      assert !rs[..i][j].isSummary;
    }
    if !(last == baseline && forall j :: 0 <= j < i ==> rs[..i][j].isSummary) {
      var j :| 0 <= j < i && !rs[..i][j].isSummary && last == Some(rs[..i][j].payload)
               && forall k :: j < k < i ==> rs[..i][k].isSummary;
      assert !rs[j].isSummary && forall k :: j < k < i ==> rs[k].isSummary;
    } else {
      assert forall j :: 0 <= j < i ==> rs[j].isSummary == rs[..i][j].isSummary;
    }
  }

  lemma {:induction false} SummariesAreCounted(rs: seq<Request>)
    ensures Summaries(rs) == |set i | 0 <= i < |rs| && rs[i].isSummary|
  {
    if rs != [] {
      var init, n := rs[..|rs| - 1], |rs| - 1;
      SummariesAreCounted(init);
      var before := set i | 0 <= i < |init| && init[i].isSummary;
      var all := set i | 0 <= i < |rs| && rs[i].isSummary;
      assert all == before + if rs[n].isSummary then {n} else {};
    }
  }

  /** The entry a request brings in. */
  ghost predicate EntryFor(g: CacheGen, rs: seq<Request>, baseline: Option<string>, i: nat)
    requires i < |rs|
  {
    && g.generation == (|set k | 0 <= k < i && rs[k].isSummary|)
    && exists pre :: ComparedWith(rs, baseline, i, pre) && Tells(g, pre, rs[i].payload)
  }

  lemma GenAtIsTheEntry(rs: seq<Request>, baseline: Option<string>, i: nat)
    requires i < |rs|
    ensures Boundary(rs, baseline, i) <==> Follows(rs, baseline, i)
    ensures Boundary(rs, baseline, i) ==> EntryFor(GenAt(rs, baseline, i), rs, baseline, i)
  {
    LastNormalIsComparedWith(rs, baseline, i);
    SummariesAreCounted(rs[..i]);
    assert (set k | 0 <= k < |rs[..i]| && rs[..i][k].isSummary) == set k | 0 <= k < i && rs[k].isSummary;
    if Boundary(rs, baseline, i) {
      var pre := LastNormal(rs[..i], baseline).value;
      assert ComparedWith(rs, baseline, i, pre) && Tells(GenAt(rs, baseline, i), pre, rs[i].payload);
    }
  }

  ghost predicate IsGenAt(g: CacheGen, rs: seq<Request>, baseline: Option<string>, i: nat) {
    i < |rs| && Boundary(rs, baseline, i) && g == GenAt(rs, baseline, i)
  }

  lemma InSnoc<T>(x: T, xs: seq<T>, y: T)
    ensures x in xs + [y] <==> x in xs || x == y
  {
  }

  lemma {:induction false} GensAreTheBoundaries(g: CacheGen, rs: seq<Request>, baseline: Option<string>, n: nat)
    requires n <= |rs|
    ensures g in Gens(rs, baseline, n) <==> exists i :: 0 <= i < n && IsGenAt(g, rs, baseline, i)
  {
    if n > 0 {
      GensAreTheBoundaries(g, rs, baseline, n - 1);
      var before := Gens(rs, baseline, n - 1);
      if Boundary(rs, baseline, n - 1) {
        InSnoc(g, before, GenAt(rs, baseline, n - 1));
        assert g in Gens(rs, baseline, n) <==> g in before || IsGenAt(g, rs, baseline, n - 1);
      } else {
        assert Gens(rs, baseline, n) == before && !IsGenAt(g, rs, baseline, n - 1);
      }
    }
  }

  /** The entries of a scan are exactly those of the requests that follow a
      compaction: each such request has one, and each entry has such a request. */
  lemma EntriesAreTheCompactions(rs: seq<Request>, baseline: Option<string>)
    ensures forall i | 0 <= i < |rs| && Follows(rs, baseline, i) ::
              exists g :: g in Gens(rs, baseline, |rs|) && EntryFor(g, rs, baseline, i)
    ensures forall g | g in Gens(rs, baseline, |rs|) ::
              exists i :: 0 <= i < |rs| && Follows(rs, baseline, i) && EntryFor(g, rs, baseline, i)
  {
    forall i | 0 <= i < |rs| && Follows(rs, baseline, i)
      ensures exists g :: g in Gens(rs, baseline, |rs|) && EntryFor(g, rs, baseline, i)
    {
      GenAtIsTheEntry(rs, baseline, i);
      var g := GenAt(rs, baseline, i);
      assert IsGenAt(g, rs, baseline, i);
      GensAreTheBoundaries(g, rs, baseline, |rs|);
    }
    forall g | g in Gens(rs, baseline, |rs|)
      ensures exists i :: 0 <= i < |rs| && Follows(rs, baseline, i) && EntryFor(g, rs, baseline, i)
    {
      GensAreTheBoundaries(g, rs, baseline, |rs|);
      var i :| 0 <= i < |rs| && IsGenAt(g, rs, baseline, i);
      GenAtIsTheEntry(rs, baseline, i);
    }
  }

  lemma CoversIsUnique(a: nat, b: nat, bytes: nat)
    requires Covers(a, bytes) && Covers(b, bytes)
    ensures a == b
  {
  }

  /** After a compaction that only let messages be appended, all of the earlier
      request is read from the cache. */
  lemma AppendOnlyReadsAll(g: CacheGen, ms: seq<Message>, more: seq<Message>)
    requires Tells(g, Serialize(ms), Serialize(ms + more))
    ensures g.read == g.pre
  {
    AppendOnlyKeepsTheWholePayload(ms, more);
    CoversIsUnique(g.read, g.pre, Utf8Length(Serialize(ms)));
  }

  /** One entry per boundary, in order, by definition. */
  function Gens(rs: seq<Request>, baseline: Option<string>, n: nat): seq<CacheGen>
    requires n <= |rs|
  {
    if n == 0 then []
    else Gens(rs, baseline, n - 1) + if Boundary(rs, baseline, n - 1) then [GenAt(rs, baseline, n - 1)] else []
  }

  /** The one-pass scan finds exactly the boundaries, and its byte slicing of each
      payload is always at a character boundary. */
  method ModelCacheEconomics(rs: seq<Request>, baseline: Option<string>) returns (gens: seq<CacheGen>)
    ensures gens == Gens(rs, baseline, |rs|)
  {
    gens := [];
    var lastNormal := baseline;
    var pendingPre := None;
    var awaitingPost := false;
    var generation := 0;
    for i := 0 to |rs|
      invariant gens == Gens(rs, baseline, i)
      invariant lastNormal == LastNormal(rs[..i], baseline)
      invariant generation == Summaries(rs[..i])
      invariant awaitingPost <==> i > 0 && rs[i - 1].isSummary
      invariant awaitingPost ==> pendingPre == lastNormal
    {
      assert rs[..i + 1][..i] == rs[..i];
      if rs[i].isSummary {
        generation := generation + 1;
        pendingPre := lastNormal;
        awaitingPost := true;
      } else {
        if awaitingPost {
          if pendingPre.Some? {
            var pre, post := pendingPre.value, rs[i].payload;
            var split := CommonPrefixBytes(pre, post);
            PrefixBytesAreABoundary(pre, post);
            var parts := SplitAtByte(post, split).value;
            gens := gens + [CacheGen(generation, EstTokens(parts.0), EstTokens(parts.1), EstTokens(pre), EstTokens(post))];
          }
          awaitingPost := false;
        }
        lastNormal := Some(rs[i].payload);
      }
    }
  }

  // One request more.
  lemma OneMore(rs: seq<Request>, baseline: Option<string>, n: nat)
    requires 0 < n <= |rs|
    ensures Summaries(rs[..n]) == Summaries(rs[..n - 1]) + if rs[n - 1].isSummary then 1 else 0
    ensures Boundary(rs, baseline, n - 1) ==>
              var g := GenAt(rs, baseline, n - 1);
              g.generation == Summaries(rs[..n]) && g.post <= g.read + g.write <= g.post + 1
  {
    assert rs[..n][..n - 1] == rs[..n - 1];
    if Boundary(rs, baseline, n - 1) {
      SplitCostsAtMostOneToken(LastNormal(rs[..n - 1], baseline).value, rs[n - 1].payload);
    }
  }

  /** Compactions that some normal request has followed. */
  function Followed(rs: seq<Request>, n: nat): nat
    requires n <= |rs|
  {
    if n > 0 && rs[n - 1].isSummary then Max(0, Summaries(rs[..n]) - 1) else Summaries(rs[..n])
  }

  /** Generations strictly increase from 1 up to a bound, and each entry's reads
      and writes add up to its request or to one token more. */
  predicate Rising(gens: seq<CacheGen>, bound: nat) {
    && (forall k :: 0 <= k < |gens| ==>
          && 1 <= gens[k].generation <= bound
          && gens[k].post <= gens[k].read + gens[k].write <= gens[k].post + 1)
    && (forall k, l :: 0 <= k < l < |gens| ==> gens[k].generation < gens[l].generation)
  }

  lemma RisingAppend(gens: seq<CacheGen>, bound: nat, g: CacheGen)
    requires Rising(gens, bound) && bound < g.generation
    requires g.post <= g.read + g.write <= g.post + 1
    ensures Rising(gens + [g], g.generation)
  {
  }

  /** Entries carry strictly increasing generations, none before the first
      compaction and none beyond the last one so far that a request followed. */
  lemma {:induction false} GenerationsIncrease(rs: seq<Request>, baseline: Option<string>, n: nat)
    requires n <= |rs|
    ensures Rising(Gens(rs, baseline, n), Followed(rs, n)) && Followed(rs, n) <= Summaries(rs[..n])
  {
    if n > 0 {
      GenerationsIncrease(rs, baseline, n - 1);
      OneMore(rs, baseline, n);
      var gens := Gens(rs, baseline, n - 1);
      if Boundary(rs, baseline, n - 1) {
        OneMore(rs, baseline, n - 1);
        RisingAppend(gens, Followed(rs, n - 1), GenAt(rs, baseline, n - 1));
      } else {
        assert gens + [] == gens;
      }
    }
  }

  /** Where an entry's two payloads come from: its request is the first normal one
      after its compaction, and it is compared with the last normal request
      before, with only summary requests in between, or with the baseline when
      no normal request came before. */
  lemma {:induction false} LastNormalIsTheLast(rs: seq<Request>, baseline: Option<string>)
    ensures var last := LastNormal(rs, baseline);
            || (last == baseline && forall i :: 0 <= i < |rs| ==> rs[i].isSummary)
            || exists j :: 0 <= j < |rs| && !rs[j].isSummary && last == Some(rs[j].payload)
                 && forall i :: j < i < |rs| ==> rs[i].isSummary
  {
    if rs != [] && rs[|rs| - 1].isSummary {
      var init := rs[..|rs| - 1];
      LastNormalIsTheLast(init, baseline);
      if j :| 0 <= j < |init| && !init[j].isSummary && LastNormal(init, baseline) == Some(init[j].payload)
              && forall i :: j < i < |init| ==> init[i].isSummary {
        assert rs[j] == init[j];
        assert forall i :: j < i < |rs| ==> rs[i].isSummary;
      }
    }
  }
}
