/** The content-addressed store for oversized tool outputs: one file per
    content, named by a digest of it, written to a temporary file and renamed.
    A put can fail, or the process can crash, at any point on the way. */
module HandleStores {
  import opened Prelude

  type Byte = b: nat | b < 256

  /** The digest is a parameter: 32 bytes that depend on the content only. */
  type Digest = string -> seq<Byte>

  const DIGEST_BYTES: nat := 32

  const HANDLE_ID_BYTES: nat := 16

  ghost predicate IsDigest(h: Digest) {
    forall c :: |h(c)| == DIGEST_BYTES
  }

  // ---- Handle ids

  function HexByte(b: Byte): string {
    [HexDigit(b / 16), HexDigit(b % 16)]
  }

  function Hex(bytes: seq<Byte>): string {
    if bytes == [] then [] else Hex(bytes[..|bytes| - 1]) + HexByte(bytes[|bytes| - 1])
  }

  function HandleId(h: Digest, content: string): string
    requires |h(content)| == DIGEST_BYTES
  {
    Hex(h(content)[..HANDLE_ID_BYTES])
  }

  method ComputeHandleId(h: Digest, content: string) returns (id: string)
    requires |h(content)| == DIGEST_BYTES
    ensures id == HandleId(h, content)
  {
    var digest := h(content)[..HANDLE_ID_BYTES];
    id := "";
    for i := 0 to |digest|
      invariant id == Hex(digest[..i])
    {
      assert digest[..i + 1][..i] == digest[..i];
      id := id + HexByte(digest[i]);
    }
    assert digest[..|digest|] == digest;
  }

  predicate IsHexDigit(c: char) {
    '0' <= c <= '9' || 'a' <= c <= 'f' || 'A' <= c <= 'F'
  }

  predicate IsHandleId(id: string) {
    id != [] && forall i :: 0 <= i < |id| ==> IsHexDigit(id[i])
  }

  lemma HexDigitsAreDistinct(m: nat, n: nat)
    requires m < 16 && n < 16 && HexDigit(m) == HexDigit(n)
    ensures m == n
  {
  }

  lemma {:induction false} HexShape(bytes: seq<Byte>)
    ensures |Hex(bytes)| == 2 * |bytes|
    ensures forall i :: 0 <= i < |Hex(bytes)| ==> IsHexDigit(Hex(bytes)[i])
  {
    if bytes != [] {
      HexShape(bytes[..|bytes| - 1]);
    }
  }

  lemma HexEnds(a: seq<Byte>, b: seq<Byte>)
    requires Hex(a) == Hex(b) && a != []
    ensures b != [] && Hex(a[..|a| - 1]) == Hex(b[..|b| - 1]) && a[|a| - 1] == b[|b| - 1]
  {
    HexShape(a);
    HexShape(b);
    SameEnds(Hex(a[..|a| - 1]), HexByte(a[|a| - 1]), Hex(b[..|b| - 1]), HexByte(b[|b| - 1]));
    HexByteIsInjective(a[|a| - 1], b[|b| - 1]);
  }

  lemma {:induction false} HexIsInjective(a: seq<Byte>, b: seq<Byte>)
    requires Hex(a) == Hex(b)
    ensures a == b
    decreases |a|
  {
    HexShape(a);
    HexShape(b);
    if a != [] {
      HexEnds(a, b);
      HexIsInjective(a[..|a| - 1], b[..|b| - 1]);
      assert a == a[..|a| - 1] + [a[|a| - 1]] && b == b[..|b| - 1] + [b[|b| - 1]];
    }
  }

  lemma SameEnds(p: string, x: string, q: string, y: string)
    requires p + x == q + y && |x| == |y|
    ensures p == q && x == y
  {
    assert |p| == |q|;
    assert p == (p + x)[..|p|] && q == (q + y)[..|q|];
    assert x == (p + x)[|p|..] && y == (q + y)[|q|..];
  }

  lemma HexByteIsInjective(x: Byte, y: Byte)
    requires HexByte(x) == HexByte(y)
    ensures x == y
  {
    assert HexDigit(x / 16) == HexByte(x)[0] == HexByte(y)[0] == HexDigit(y / 16);
    assert HexDigit(x % 16) == HexByte(x)[1] == HexByte(y)[1] == HexDigit(y % 16);
    HexDigitsAreDistinct(x / 16, y / 16);
    HexDigitsAreDistinct(x % 16, y % 16);
  }

  /** Every minted id is 32 characters long and passes the check a reader applies
      to untrusted ids; two contents share one exactly when the leading 16 bytes
      of their digests agree. */
  lemma MintedIds(h: Digest, c: string, d: string)
    requires IsDigest(h)
    ensures IsHandleId(HandleId(h, c)) && |HandleId(h, c)| == 32
    ensures HandleId(h, c) == HandleId(h, d) <==> h(c)[..HANDLE_ID_BYTES] == h(d)[..HANDLE_ID_BYTES]
  {
    HexShape(h(c)[..HANDLE_ID_BYTES]);
    if HandleId(h, c) == HandleId(h, d) {
      HexIsInjective(h(c)[..HANDLE_ID_BYTES], h(d)[..HANDLE_ID_BYTES]);
    }
  }

  /** What a hexadecimal digit stands for. */
  function DigitValue(c: char): nat {
    if '0' <= c <= '9' then c as int - '0' as int
    else if 'a' <= c <= 'f' then c as int - 'a' as int + 10
    else 16
  }

  lemma HexByteReadsBack(b: Byte)
    ensures |HexByte(b)| == 2 && DigitValue(HexByte(b)[0]) < 16 && DigitValue(HexByte(b)[1]) < 16
    ensures 16 * DigitValue(HexByte(b)[0]) + DigitValue(HexByte(b)[1]) == b
  {
  }

  lemma {:induction false} HexReadsBack(bytes: seq<Byte>, i: nat)
    requires i < |bytes|
    ensures |Hex(bytes)| == 2 * |bytes|
    ensures 16 * DigitValue(Hex(bytes)[2 * i]) + DigitValue(Hex(bytes)[2 * i + 1]) == bytes[i]
  {
    var init, last := bytes[..|bytes| - 1], bytes[|bytes| - 1];
    HexShape(bytes);
    HexShape(init);
    HexByteReadsBack(last);
    if i < |init| {
      HexReadsBack(init, i);
    }
  }

  /** The digits of a minted id, lower-case and two to a byte, high half first, read
      back the leading 16 bytes of the digest. */
  lemma MintedIdsReadBack(h: Digest, content: string, i: nat)
    requires IsDigest(h) && i < 16
    ensures var id := HandleId(h, content);
            && |id| == 32
            && 16 * DigitValue(id[2 * i]) + DigitValue(id[2 * i + 1]) == h(content)[i]
  {
    HexReadsBack(h(content)[..HANDLE_ID_BYTES], i);
  }

  /** An id passes the check exactly when it is some hexadecimal digits, so it has no
      character that could lead out of the directory. */
  lemma CheckedIdsAreDigits(id: string)
    ensures IsHandleId(id) <==> id != "" && forall c :: c in id ==> c in "0123456789abcdefABCDEF"
    ensures IsHandleId(id) ==> '/' !in id && '\\' !in id && '.' !in id && ':' !in id
  {
    forall c: char ensures IsHexDigit(c) <==> c in "0123456789abcdefABCDEF" {
      DigitsAreThese(c);
    }
  }

  lemma DigitsAreThese(c: char)
    ensures IsHexDigit(c) <==> c in "0123456789abcdefABCDEF"
  {
    var digits := "0123456789abcdefABCDEF";
    if '0' <= c <= '9' {
      assert digits[c as int - '0' as int] == c;
    } else if 'a' <= c <= 'f' {
      assert digits[c as int - 'a' as int + 10] == c;
    } else if 'A' <= c <= 'F' {
      assert digits[c as int - 'A' as int + 16] == c;
    }
  }

  // ---- The directory

  /** File name to file content. A rename replaces its target in one step. */
  type Dir = map<string, string>

  function FinalName(id: string): string { id + ".txt" }

  function TempName(id: string): string { id + ".tmp" }

  lemma NamesAreDistinct(a: string, b: string)
    ensures FinalName(a) != TempName(b)
    ensures FinalName(a) == FinalName(b) ==> a == b
  {
    var f, t := FinalName(a), TempName(b);
    assert f[|f| - 2] == ".txt"[2] == 'x';
    assert t[|t| - 2] == ".tmp"[2] == 'm';
    if FinalName(a) == FinalName(b) {
      assert a == FinalName(a)[..|FinalName(a)| - 4] == FinalName(b)[..|FinalName(b)| - 4] == b;
    }
  }

  /** Where a put stops. Everything but `Finishes` is an error return or a crash. */
  datatype Fate =
    | NoDirectory                  // the directory cannot be created
    | NoTemp                       // the temporary file cannot be created
    | Truncated(length: nat)       // only this much of the content was written
    | Unrenamed                    // the rename did not happen
    | Lost                         // everything happened but the caller never hears of it
    | Finishes

  function Prefix(content: string, length: nat): string {
    if length <= |content| then content[..length] else content
  }

  /** The directory a put leaves and the id it returns, if it returns one. */
  function Put(h: Digest, dir: Dir, content: string, fate: Fate): (Dir, Option<string>)
    requires |h(content)| == DIGEST_BYTES
  {
    var id := HandleId(h, content);
    var answer := if fate.Finishes? then Some(id) else None;
    if fate.NoDirectory? then (dir, None)
    else if FinalName(id) in dir then (dir, if fate.Lost? then None else Some(id))
    else match fate
      case NoTemp => (dir, None)
      case Truncated(length) => (dir[TempName(id) := Prefix(content, length)], None)
      case Unrenamed => (dir[TempName(id) := content], None)
      case _ => ((dir - {TempName(id)})[FinalName(id) := content], answer)
  }

  function Get(dir: Dir, id: string): Option<string> {
    if !IsHandleId(id) then None
    else if FinalName(id) in dir then Some(dir[FinalName(id)])
    else None
  }

  /** The store as the program has it, writing the directory step by step. */
  class HandleStore {
    var files: Dir
    const digest: Digest

    constructor (digest: Digest, files: Dir)
      ensures this.digest == digest && this.files == files
    {
      this.digest := digest;
      this.files := files;
    }

    method PutFile(content: string, fate: Fate) returns (answer: Option<string>)
      requires |digest(content)| == DIGEST_BYTES
      modifies this
      ensures (files, answer) == Put(digest, old(files), content, fate)
    {
      if fate.NoDirectory? {
        return None;
      }
      var id := ComputeHandleId(digest, content);
      var path := FinalName(id);
      if path in files {
        return if fate.Lost? then None else Some(id);
      }
      var temp := TempName(id);
      if fate.NoTemp? {
        return None;
      }
      files := files[temp := if fate.Truncated? then Prefix(content, fate.length) else content];
      if fate.Truncated? || fate.Unrenamed? {
        return None;
      }
      NamesAreDistinct(id, id);
      files := (files - {temp})[path := files[temp]];
      assert files == (old(files) - {temp})[path := content];
      answer := if fate.Lost? then None else Some(id);
    }

    method GetFile(id: string) returns (content: Option<string>)
      ensures content == Get(files, id)
    {
      if !IsHandleId(id) {
        return None;
      }
      var path := FinalName(id);
      content := if path in files then Some(files[path]) else None;
    }
  }

  // ---- What a directory may hold

  /** Every final file holds a content its name is the id of. */
  ghost predicate Addressed(h: Digest, dir: Dir)
    requires IsDigest(h)
  {
    forall id :: FinalName(id) in dir ==> id == HandleId(h, dir[FinalName(id)])
  }

  lemma EmptyIsAddressed(h: Digest)
    requires IsDigest(h)
    ensures Addressed(h, map[])
  {
  }

  // The final files after a put: the old ones, and perhaps the one it stored.
  lemma FilesAfterPut(h: Digest, dir: Dir, content: string, fate: Fate, id: string)
    requires IsDigest(h)
    ensures var after, mine := Put(h, dir, content, fate).0, HandleId(h, content);
            var stored := FinalName(mine) !in dir && (fate.Finishes? || fate.Lost?);
            && (FinalName(id) in after <==> FinalName(id) in dir || (stored && id == mine))
            && (FinalName(id) in dir ==> after[FinalName(id)] == dir[FinalName(id)])
            && (stored && id == mine ==> after[FinalName(id)] == content)
  {
    NamesAreDistinct(id, HandleId(h, content));
    NamesAreDistinct(HandleId(h, content), HandleId(h, content));
  }

  /** A put keeps it whatever its fate, and touches no other final file. */
  lemma PutKeepsAddressed(h: Digest, dir: Dir, content: string, fate: Fate)
    requires IsDigest(h) && Addressed(h, dir)
    ensures Addressed(h, Put(h, dir, content, fate).0)
    ensures forall id :: FinalName(id) in dir ==>
              FinalName(id) in Put(h, dir, content, fate).0
              && Put(h, dir, content, fate).0[FinalName(id)] == dir[FinalName(id)]
  {
    forall id {
      FilesAfterPut(h, dir, content, fate, id);
    }
  }

  /** A put touches no file but the two named after its content's id, and leaves no
      temporary file when it has stored the content. */
  lemma PutTouchesItsOwnFiles(h: Digest, dir: Dir, content: string, fate: Fate)
    requires IsDigest(h)
    ensures var after, id := Put(h, dir, content, fate).0, HandleId(h, content);
            && (forall name | name != id + ".txt" && name != id + ".tmp" ::
                  (name in after <==> name in dir) && (name in dir ==> after[name] == dir[name]))
            && (id + ".txt" !in dir && id + ".txt" in after ==> id + ".tmp" !in after)
            && (id + ".tmp" in after && (id + ".tmp" in dir ==> after[id + ".tmp"] != dir[id + ".tmp"]) ==>
                  after[id + ".tmp"] <= content)
  {
    NamesAreDistinct(HandleId(h, content), HandleId(h, content));
  }

  // ---- The abstract map

  /** A partial map from id to content is what the directory stands for. */
  ghost predicate Represents(dir: Dir, m: map<string, string>) {
    forall id :: (id in m <==> FinalName(id) in dir) && (id in m ==> m[id] == dir[FinalName(id)])
  }

  /** A put on the map: nothing, or one new binding that no old one gives way to. */
  function PutMap(m: map<string, string>, id: string, content: string): map<string, string> {
    if id in m then m else m[id := content]
  }

  /** A put that returns an id has done exactly the abstract put; one that stops
      short has done it or left the abstract map alone. */
  lemma PutRefinesTheMap(h: Digest, dir: Dir, m: map<string, string>, content: string, fate: Fate)
    requires IsDigest(h) && Represents(dir, m)
    ensures var (after, answer) := Put(h, dir, content, fate);
            var id := HandleId(h, content);
            && (answer.Some? ==> answer.value == id && Represents(after, PutMap(m, id, content)))
            && (Represents(after, m) || Represents(after, PutMap(m, id, content)))
  {
    var mine := HandleId(h, content);
    var (after, answer) := Put(h, dir, content, fate);
    forall id {
      FilesAfterPut(h, dir, content, fate, id);
    }
    if FinalName(mine) !in dir && (fate.Finishes? || fate.Lost?) {
      assert Represents(after, PutMap(m, mine, content));
    } else {
      assert Represents(after, m);
    }
  }

  /** Reading returns what the map holds for every id, forged ones included,
      because only minted ids are ever bound. */
  lemma GetReadsTheMap(h: Digest, dir: Dir, m: map<string, string>, id: string)
    requires IsDigest(h) && Addressed(h, dir) && Represents(dir, m)
    ensures Get(dir, id) == if id in m then Some(m[id]) else None
  {
    if id in m {
      MintedIds(h, m[id], m[id]);
    }
  }

  /** Putting a stored content again changes nothing wherever it stops, and returns
      the same id unless the directory fails or the caller never hears. */
  lemma PutIsIdempotent(h: Digest, dir: Dir, content: string, fate: Fate, again: Fate)
    requires IsDigest(h) && Put(h, dir, content, fate).1.Some?
    ensures var (after, answer) := Put(h, dir, content, fate);
            Put(h, after, content, again) == (after, if again.NoDirectory? || again.Lost? then None else answer)
  {
  }

  // ---- Sequences of puts

  datatype Attempt = Attempt(content: string, fate: Fate)

  function PutAll(h: Digest, dir: Dir, attempts: seq<Attempt>): Dir
    requires IsDigest(h)
    decreases |attempts|
  {
    if attempts == [] then dir
    else PutAll(h, Put(h, dir, attempts[0].content, attempts[0].fate).0, attempts[1..])
  }

  lemma {:induction false} PutAllKeepsFiles(h: Digest, dir: Dir, attempts: seq<Attempt>)
    requires IsDigest(h) && Addressed(h, dir)
    ensures Addressed(h, PutAll(h, dir, attempts))
    ensures forall id :: FinalName(id) in dir ==>
              FinalName(id) in PutAll(h, dir, attempts)
              && PutAll(h, dir, attempts)[FinalName(id)] == dir[FinalName(id)]
    decreases |attempts|
  {
    if attempts != [] {
      var next := Put(h, dir, attempts[0].content, attempts[0].fate).0;
      PutKeepsAddressed(h, dir, attempts[0].content, attempts[0].fate);
      PutAllKeepsFiles(h, next, attempts[1..]);
    }
  }

  // Contents that have reached a directory come from it or from the puts.
  lemma {:induction false} StoredContentsCameFrom(h: Digest, dir: Dir, attempts: seq<Attempt>, id: string)
    requires IsDigest(h) && FinalName(id) in PutAll(h, dir, attempts)
    ensures var content := PutAll(h, dir, attempts)[FinalName(id)];
            || (FinalName(id) in dir && dir[FinalName(id)] == content)
            || exists i :: 0 <= i < |attempts| && attempts[i].content == content
    decreases |attempts|
  {
    if attempts != [] {
      var first := attempts[0];
      var next := Put(h, dir, first.content, first.fate).0;
      var content := PutAll(h, dir, attempts)[FinalName(id)];
      StoredContentsCameFrom(h, next, attempts[1..], id);
      FilesAfterPut(h, dir, first.content, first.fate, id);
      if FinalName(id) in next && next[FinalName(id)] == content {
        if !(FinalName(id) in dir && dir[FinalName(id)] == content) {
          assert attempts[0].content == content;
        }
      } else {
        var i :| 0 <= i < |attempts[1..]| && attempts[1..][i].content == content;
        assert attempts[i + 1].content == content;
      }
    }
  }

  /** The attempt got as far as the rename, or found the file there. */
  predicate Stores(attempt: Attempt) {
    attempt.fate.Finishes? || attempt.fate.Lost?
  }

  /** The content of the first attempt under the id that got as far as the rename. */
  ghost function FirstStored(h: Digest, attempts: seq<Attempt>, id: string): Option<string>
    requires IsDigest(h)
    decreases |attempts|
  {
    if attempts == [] then None
    else if Stores(attempts[0]) && HandleId(h, attempts[0].content) == id then Some(attempts[0].content)
    else FirstStored(h, attempts[1..], id)
  }

  /** Whatever was put and wherever it stopped, an id nothing was stored under
      before reads back the first content stored under it, or nothing. */
  lemma {:induction false} FirstStoredIsRead(h: Digest, dir: Dir, attempts: seq<Attempt>, id: string)
    requires IsDigest(h) && Addressed(h, dir) && IsHandleId(id) && FinalName(id) !in dir
    ensures Get(PutAll(h, dir, attempts), id) == FirstStored(h, attempts, id)
    decreases |attempts|
  {
    if attempts != [] {
      var first := attempts[0];
      var next := Put(h, dir, first.content, first.fate).0;
      FilesAfterPut(h, dir, first.content, first.fate, id);
      PutKeepsAddressed(h, dir, first.content, first.fate);
      if FinalName(id) in next {
        PutAllKeepsFiles(h, next, attempts[1..]);
      } else {
        FirstStoredIsRead(h, next, attempts[1..], id);
      }
    }
  }

  lemma {:induction false} FirstStoredSnoc(h: Digest, before: seq<Attempt>, last: Attempt, id: string)
    requires IsDigest(h)
    ensures FirstStored(h, before + [last], id) ==
            if FirstStored(h, before, id).Some? then FirstStored(h, before, id)
            else if Stores(last) && HandleId(h, last.content) == id then Some(last.content)
            else None
    decreases |before|
  {
    if before == [] {
      assert before + [last] == [last] && [last][1..] == [];
    } else {
      assert (before + [last])[1..] == before[1..] + [last];
      FirstStoredSnoc(h, before[1..], last, id);
    }
  }

  lemma {:induction false} PutAllSnoc(h: Digest, dir: Dir, before: seq<Attempt>, last: Attempt)
    requires IsDigest(h)
    ensures PutAll(h, dir, before + [last]) == Put(h, PutAll(h, dir, before), last.content, last.fate).0
    decreases |before|
  {
    if before == [] {
      assert before + [last] == [last] && [last][1..] == [];
    } else {
      assert (before + [last])[1..] == before[1..] + [last];
      PutAllSnoc(h, Put(h, dir, before[0].content, before[0].fate).0, before[1..], last);
    }
  }

  /** After a put that returned, its id reads back the content if and only if no
      other content was stored under that id first. */
  lemma PutThenGetExactlyWhen(h: Digest, dir: Dir, before: seq<Attempt>, content: string, fate: Fate)
    requires IsDigest(h) && Addressed(h, dir) && FinalName(HandleId(h, content)) !in dir
    requires Put(h, PutAll(h, dir, before), content, fate).1.Some?
    ensures var (after, answer) := Put(h, PutAll(h, dir, before), content, fate);
            && answer.value == HandleId(h, content)
            && (Get(after, answer.value) == Some(content) <==>
                  FirstStored(h, before, answer.value) in {None, Some(content)})
  {
    var id := HandleId(h, content);
    MintedIds(h, content, content);
    FirstStoredIsRead(h, dir, before, id);
    FirstStoredIsRead(h, dir, before + [Attempt(content, fate)], id);
    PutAllSnoc(h, dir, before, Attempt(content, fate));
    FirstStoredSnoc(h, before, Attempt(content, fate), id);
  }

  /** The failing case: two contents under one digest. The second put returns an
      id that reads back the first content. */
  lemma CollidingContentsAreConfused()
    ensures exists h: Digest ::
              && IsDigest(h)
              && var (first, _) := Put(h, map[], "one", Finishes);
                 var (second, answer) := Put(h, first, "two", Finishes);
                 answer.Some? && Get(second, answer.value) == Some("one") != Some("two")
  {
    var zeros: seq<Byte> := seq(DIGEST_BYTES, i => 0);
    var h: Digest := content => zeros;
    assert IsDigest(h);
    var (first, _) := Put(h, map[], "one", Finishes);
    var (second, answer) := Put(h, first, "two", Finishes);
    MintedIds(h, "one", "two");
    assert "one"[0] != "two"[0];
    assert answer.Some? && Get(second, answer.value) == Some("one");
  }

  // No two contents that were ever put share a handle id.
  ghost predicate Collisionless(h: Digest, attempts: seq<Attempt>)
    requires IsDigest(h)
  {
    forall i, j :: 0 <= i < |attempts| && 0 <= j < |attempts| &&
                   HandleId(h, attempts[i].content) == HandleId(h, attempts[j].content)
                   ==> attempts[i].content == attempts[j].content
  }

  /** Starting from nothing, a content whose put returned reads back, in full and
      for good, whatever puts come before and after it and wherever they stop, as
      long as the contents put do not collide. */
  lemma StoredOutputsStayReadable(h: Digest, before: seq<Attempt>, content: string, fate: Fate, rest: seq<Attempt>)
    requires IsDigest(h) && Collisionless(h, before + [Attempt(content, fate)] + rest)
    requires Put(h, PutAll(h, map[], before), content, fate).1.Some?
    ensures var (dir, answer) := Put(h, PutAll(h, map[], before), content, fate);
            Get(PutAll(h, dir, rest), answer.value) == Some(content)
  {
    var all := before + [Attempt(content, fate)] + rest;
    var start := PutAll(h, map[], before);
    var (dir, answer) := Put(h, start, content, fate);
    var id := HandleId(h, content);
    EmptyIsAddressed(h);
    PutAllKeepsFiles(h, map[], before);
    PutKeepsAddressed(h, start, content, fate);
    PutAllKeepsFiles(h, dir, rest);
    MintedIds(h, content, content);
    if FinalName(id) in start {
      StoredContentsCameFrom(h, map[], before, id);
      var i :| 0 <= i < |before| && before[i].content == start[FinalName(id)];
      assert all[i] == before[i] && all[|before|] == Attempt(content, fate);
    }
    assert FinalName(id) in dir && dir[FinalName(id)] == content;
  }
}
