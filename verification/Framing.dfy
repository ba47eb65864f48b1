/** The byte stream behind the source digest: named and length-prefixed sections, then each
    untracked file as a sequence of length-prefixed blocks closed by an empty one. */
module Framing {
  import opened Slices
  import opened Wrappers
  import opened Utf8
  import opened LittleEndian

  const BLOCK := 65536

  const STATUS: seq<byte> := [115, 116, 97, 116, 117, 115, 0]
  const TRACKED_DIFF: seq<byte> := [116, 114, 97, 99, 107, 101, 100, 45, 100, 105, 102, 102, 0]
  const UNTRACKED: seq<byte> := [117, 110, 116, 114, 97, 99, 107, 101, 100, 0]

  type Bytes = seq<byte>

  /** The length fits the eight bytes that carry it. */
  predicate Sized(s: Bytes) { |s| < Power(8) }

  function Block(s: Bytes): Bytes
    requires Sized(s)
  {
    Encode(|s|, 8) + s
  }

  /** Nonempty pieces of a file, as its reader delivered them. */
  predicate Delivered(chunks: seq<Bytes>) {
    forall i :: 0 <= i < |chunks| ==> chunks[i] != [] && Sized(chunks[i])
  }

  function Content(chunks: seq<Bytes>): Bytes {
    if chunks == [] then [] else chunks[0] + Content(chunks[1..])
  }

  function Pieces(chunks: seq<Bytes>): Bytes
    requires Delivered(chunks)
  {
    if chunks == [] then Block([]) else Block(chunks[0]) + Pieces(chunks[1..])
  }

  datatype Item = Item(path: Bytes, chunks: seq<Bytes>)

  predicate Framable(items: seq<Item>) {
    forall i :: 0 <= i < |items| ==> Sized(items[i].path) && Delivered(items[i].chunks)
  }

  function File(item: Item): Bytes
    requires Sized(item.path) && Delivered(item.chunks)
  {
    UNTRACKED + Block(item.path) + Pieces(item.chunks)
  }

  function Files(items: seq<Item>): Bytes
    requires Framable(items)
  {
    if items == [] then [] else File(items[0]) + Files(items[1..])
  }

  /** Everything the digest is fed, in order. */
  function Stream(status: Bytes, diff: Bytes, items: seq<Item>): Bytes
    requires Sized(status) && Sized(diff) && Framable(items)
  {
    STATUS + Block(status) + TRACKED_DIFF + Block(diff) + Files(items)
  }

  // ----- reading it back

  function TakeBlock(s: Bytes): Option<(Bytes, Bytes)> {
    if |s| < 8 then None
    else
      var n := Decode(s[..8]);
      if |s| < 8 + n then None else Some((s[8..8 + n], s[8 + n..]))
  }

  function TakeLabel(s: Bytes, name: Bytes): Option<Bytes> {
    if name <= s then Some(s[|name|..]) else None
  }

  function TakeContent(s: Bytes): Option<(Bytes, Bytes)>
    decreases |s|
  {
    match TakeBlock(s)
    case None => None
    case Some((block, rest)) =>
      if block == [] then Some(([], rest))
      else
        match TakeContent(rest)
        case None => None
        case Some((content, after)) => Some((block + content, after))
  }

  function TakeFiles(s: Bytes): Option<seq<(Bytes, Bytes)>>
    decreases |s|
  {
    if s == [] then Some([])
    else
      match TakeLabel(s, UNTRACKED)
      case None => None
      case Some(named) =>
        match TakeBlock(named)
        case None => None
        case Some((path, body)) =>
          match TakeContent(body)
          case None => None
          case Some((content, rest)) =>
            if |rest| >= |s| then None
            else
              match TakeFiles(rest)
              case None => None
              case Some(files) => Some([(path, content)] + files)
  }

  function Parse(s: Bytes): Option<(Bytes, Bytes, seq<(Bytes, Bytes)>)> {
    match TakeLabel(s, STATUS)
    case None => None
    case Some(s1) =>
      match TakeBlock(s1)
      case None => None
      case Some((status, s2)) =>
        match TakeLabel(s2, TRACKED_DIFF)
        case None => None
        case Some(s3) =>
          match TakeBlock(s3)
          case None => None
          case Some((diff, s4)) =>
            match TakeFiles(s4)
            case None => None
            case Some(files) => Some((status, diff, files))
  }

  lemma BlockReadsBack(b: Bytes, rest: Bytes)
    requires Sized(b)
    ensures TakeBlock(Block(b) + rest) == Some((b, rest))
  {
    DecodeEncode(|b|, 8);
    var s := Block(b) + rest;
    assert s[..8] == Encode(|b|, 8);
    assert s[8..8 + |b|] == b && s[8 + |b|..] == rest;
  }

  lemma LabelReadsBack(name: Bytes, rest: Bytes)
    ensures TakeLabel(name + rest, name) == Some(rest)
  {
  }

  lemma PiecesFront(chunks: seq<Bytes>, rest: Bytes)
    requires chunks != [] && Delivered(chunks)
    ensures Pieces(chunks) + rest == Block(chunks[0]) + (Pieces(chunks[1..]) + rest)
  {
  }

  /** A file reads back as its content, whatever pieces it was delivered in. */
  lemma {:induction false} ContentReadsBack(chunks: seq<Bytes>, rest: Bytes)
    requires Delivered(chunks)
    ensures TakeContent(Pieces(chunks) + rest) == Some((Content(chunks), rest))
    decreases |chunks|
  {
    if chunks == [] {
      BlockReadsBack([], rest);
    } else {
      PiecesFront(chunks, rest);
      BlockReadsBack(chunks[0], Pieces(chunks[1..]) + rest);
      ContentReadsBack(chunks[1..], rest);
    }
  }

  function Named(items: seq<Item>): seq<(Bytes, Bytes)> {
    seq(|items|, i requires 0 <= i < |items| => (items[i].path, Content(items[i].chunks)))
  }

  lemma FilesFront(items: seq<Item>, path: Bytes, body: Bytes, rest: Bytes)
    requires items != [] && Framable(items)
    requires path == Block(items[0].path) && body == Pieces(items[0].chunks) && rest == Files(items[1..])
    ensures Files(items) == UNTRACKED + (path + (body + rest))
  {
    ConcatAssociates(UNTRACKED + path, body, rest);
    ConcatAssociates(UNTRACKED, path, body + rest);
  }

  /** One file in front of the rest reads back as one file in front of the rest. */
  lemma FileReadsBack(item: Item, rest: Bytes)
    requires Sized(item.path) && Delivered(item.chunks) && TakeFiles(rest).Some?
    ensures TakeFiles(UNTRACKED + (Block(item.path) + (Pieces(item.chunks) + rest)))
         == Some([(item.path, Content(item.chunks))] + TakeFiles(rest).value)
  {
    var body := Pieces(item.chunks) + rest;
    var named := Block(item.path) + body;
    LabelReadsBack(UNTRACKED, named);
    BlockReadsBack(item.path, body);
    ContentReadsBack(item.chunks, rest);
  }

  lemma {:induction false} FilesReadBack(items: seq<Item>)
    requires Framable(items)
    ensures TakeFiles(Files(items)) == Some(Named(items))
    decreases |items|
  {
    if items == [] {
      NoFiles(items);
    } else {
      hide Files, TakeFiles, Named, Content, Block, Pieces;
      var item := items[0];
      var rest := Files(items[1..]);
      FilesFront(items, Block(item.path), Pieces(item.chunks), rest);
      FilesReadBack(items[1..]);
      FileReadsBack(item, rest);
      NamedCons(items);
    }
  }

  lemma NoFiles(items: seq<Item>)
    requires items == []
    ensures TakeFiles(Files(items)) == Some(Named(items))
  {
    assert Named(items) == [];
  }

  lemma NamedCons(items: seq<Item>)
    requires items != []
    ensures Named(items) == [(items[0].path, Content(items[0].chunks))] + Named(items[1..])
  {
  }

  lemma FiveParts(a: Bytes, b: Bytes, c: Bytes, d: Bytes, e: Bytes)
    ensures a + b + c + d + e == a + (b + (c + (d + e)))
  {
    ConcatAssociates(a + b + c, d, e);
    ConcatAssociates(a + b, c, d + e);
    ConcatAssociates(a, b, c + (d + e));
  }

  /** The two named sections read back in front of whatever files follow. */
  lemma HeadsReadBack(status: Bytes, diff: Bytes, files: Bytes, named: seq<(Bytes, Bytes)>, s2: Bytes, s3: Bytes)
    requires Sized(status) && Sized(diff) && TakeFiles(files) == Some(named)
    requires s3 == Block(diff) + files && s2 == TRACKED_DIFF + s3
    ensures Parse(STATUS + (Block(status) + s2)) == Some((status, diff, named))
  {
    hide TakeLabel, TakeBlock, TakeFiles, Block;
    LabelReadsBack(STATUS, Block(status) + s2);
    BlockReadsBack(status, s2);
    LabelReadsBack(TRACKED_DIFF, s3);
    BlockReadsBack(diff, files);
  }

  /** The stream is uniquely decodable: status, diff and every path with its content come back
      from it, however the files were read. */
  lemma StreamReadsBack(status: Bytes, diff: Bytes, items: seq<Item>)
    requires Sized(status) && Sized(diff) && Framable(items)
    ensures Parse(Stream(status, diff, items)) == Some((status, diff, Named(items)))
  {
    hide Parse, Files, TakeFiles, Block, Named;
    var files := Files(items);
    var s3 := Block(diff) + files;
    var s2 := TRACKED_DIFF + s3;
    FilesReadBack(items);
    FiveParts(STATUS, Block(status), TRACKED_DIFF, Block(diff), files);
    HeadsReadBack(status, diff, files, Named(items), s2, s3);
  }

  /** Two source trees with one stream have the same status, the same diff and the same
      untracked files with the same contents. */
  lemma StreamsSeparateSources(status: Bytes, diff: Bytes, items: seq<Item>,
                               status': Bytes, diff': Bytes, items': seq<Item>)
    requires Sized(status) && Sized(diff) && Framable(items)
    requires Sized(status') && Sized(diff') && Framable(items')
    requires Stream(status, diff, items) == Stream(status', diff', items')
    ensures status == status' && diff == diff' && Named(items) == Named(items')
  {
    StreamReadsBack(status, diff, items);
    StreamReadsBack(status', diff', items');
  }

  // ----- git's path list

  /** The nonempty entries between NUL bytes. */
  function Entries(raw: Bytes): seq<Bytes>
    decreases |raw|
  {
    var end := FirstNul(raw);
    var entry := if raw[..end] == [] then [] else [raw[..end]];
    if end == |raw| then entry else entry + Entries(raw[end + 1..])
  }

  function FirstNul(raw: Bytes): (end: nat)
    ensures end <= |raw| && (end < |raw| ==> raw[end] == 0)
    ensures forall i :: 0 <= i < end ==> raw[i] != 0
  {
    if raw == [] || raw[0] == 0 then 0 else 1 + FirstNul(raw[1..])
  }

  predicate IsPath(path: Bytes) { path != [] && forall i :: 0 <= i < |path| ==> path[i] != 0 }

  function Terminated(paths: seq<Bytes>): Bytes {
    if paths == [] then [] else paths[0] + [0] + Terminated(paths[1..])
  }

  lemma FirstEntry(path: Bytes, rest: Bytes)
    requires IsPath(path)
    ensures Entries(path + [0] + rest) == [path] + Entries(rest)
  {
    var raw := path + [0] + rest;
    assert raw[|path|] == 0 && forall i :: 0 <= i < |path| ==> raw[i] == path[i];
    assert FirstNul(raw) == |path|;
    assert raw[..|path|] == path && raw[|path| + 1..] == rest;
  }

  /** Splitting recovers exactly the paths git lists, each closed by a NUL. */
  lemma {:induction false} PathsReadBack(paths: seq<Bytes>)
    requires forall i :: 0 <= i < |paths| ==> IsPath(paths[i])
    ensures Entries(Terminated(paths)) == paths
    decreases |paths|
  {
    if paths != [] {
      PathsReadBack(paths[1..]);
      FirstEntry(paths[0], Terminated(paths[1..]));
      assert paths == [paths[0]] + paths[1..];
    }
  }

  // ----- the two producers

  datatype Error = Unreadable(path: Bytes) | NotUtf8(path: Bytes) | TooLong

  /** How many bytes a read at an offset of a file yields: some, at most one block, and none
      only at the end. */
  ghost predicate Reads(path: Bytes, content: Bytes, count: (Bytes, nat) -> nat) {
    forall at: nat :: at < |content| ==> 1 <= count(path, at) <= BLOCK && at + count(path, at) <= |content|
  }

  /** The pieces those reads cut the file into. */
  ghost function Cut(path: Bytes, content: Bytes, from: nat, count: (Bytes, nat) -> nat): seq<Bytes>
    requires from <= |content| && Reads(path, content, count)
    decreases |content| - from
  {
    if from == |content| then []
    else [content[from..from + count(path, from)]] + Cut(path, content, from + count(path, from), count)
  }

  lemma PowerIsLarge()
    ensures Power(8) > BLOCK
  {
    assert Power(3) == 256 * Power(2) == 256 * 256 * Power(1) == 256 * 256 * 256;
    assert Power(8) >= Power(7) >= Power(6) >= Power(5) >= Power(4) >= Power(3);
  }

  lemma OneMoreChunk(content: Bytes, from: nat, n: nat, rest: seq<Bytes>)
    requires 1 <= n <= BLOCK && from + n <= |content|
    requires Delivered(rest) && Content(rest) == content[from + n..]
    ensures Delivered([content[from..from + n]] + rest)
    ensures Content([content[from..from + n]] + rest) == content[from..]
  {
    PowerIsLarge();
    var chunks := [content[from..from + n]] + rest;
    assert chunks[1..] == rest;
    Joined(content, from, from + n, |content|);
  }

  lemma {:induction false} CutDelivers(path: Bytes, content: Bytes, from: nat, count: (Bytes, nat) -> nat)
    requires from <= |content| && Reads(path, content, count)
    ensures Delivered(Cut(path, content, from, count)) && Content(Cut(path, content, from, count)) == content[from..]
    decreases |content| - from
  {
    if from < |content| {
      var n := count(path, from);
      CutDelivers(path, content, from + n, count);
      OneMoreChunk(content, from, n, Cut(path, content, from + n, count));
    }
  }

  /** A read that never comes up short: a whole block, or all that is left. */
  function FullRead(length: nat, at: nat): nat {
    if at + BLOCK <= length then BLOCK else if at < length then length - at else 0
  }

  /** Every listed file can be opened and read. */
  ghost predicate Open(paths: seq<Bytes>, files: map<Bytes, Bytes>, count: (Bytes, nat) -> nat) {
    forall p :: p in paths ==> p in files && Sized(p) && Reads(p, files[p], count)
  }

  ghost function ItemsOf(paths: seq<Bytes>, files: map<Bytes, Bytes>, count: (Bytes, nat) -> nat): (items: seq<Item>)
    requires Open(paths, files, count)
    ensures |items| == |paths|
  {
    if paths == [] then []
    else [Item(paths[0], Cut(paths[0], files[paths[0]], 0, count))] + ItemsOf(paths[1..], files, count)
  }

  lemma {:induction false} ItemsAreFramable(paths: seq<Bytes>, files: map<Bytes, Bytes>, count: (Bytes, nat) -> nat)
    requires Open(paths, files, count)
    ensures Framable(ItemsOf(paths, files, count))
    ensures Named(ItemsOf(paths, files, count)) == seq(|paths|, i requires 0 <= i < |paths| => (paths[i], files[paths[i]]))
    decreases |paths|
  {
    if paths != [] {
      CutDelivers(paths[0], files[paths[0]], 0, count);
      ItemsAreFramable(paths[1..], files, count);
      var items, rest := ItemsOf(paths, files, count), ItemsOf(paths[1..], files, count);
      forall i | 0 <= i < |paths|
        ensures Sized(items[i].path) && Delivered(items[i].chunks)
        ensures (items[i].path, Content(items[i].chunks)) == (paths[i], files[paths[i]])
      {
        if i > 0 {
          assert items[i] == rest[i - 1] && paths[i] == paths[1..][i - 1];
          assert Named(rest)[i - 1] == (paths[i], files[paths[i]]);
        }
      }
    }
  }

  /** `out` is what the reader's loop has emitted of a file when it stands at `at`. */
  ghost predicate Sent(out: Bytes, path: Bytes, content: Bytes, at: nat, count: (Bytes, nat) -> nat)
    requires at <= |content| && Reads(path, content, count)
  {
    var rest, all := Cut(path, content, at, count), Cut(path, content, 0, count);
    Delivered(rest) && Delivered(all) && out + Pieces(rest) == Pieces(all)
  }

  lemma OnePiece(out: Bytes, piece: Bytes, rest: seq<Bytes>)
    requires Delivered([piece] + rest)
    ensures Sized(piece) && Delivered(rest) && out + Pieces([piece] + rest) == (out + Block(piece)) + Pieces(rest)
  {
    var chunks := [piece] + rest;
    assert chunks[0] == piece && chunks[1..] == rest;
    ConcatAssociates(out, Block(piece), Pieces(rest));
  }

  lemma SendOne(out: Bytes, path: Bytes, content: Bytes, at: nat, count: (Bytes, nat) -> nat)
    requires at < |content| && Reads(path, content, count) && Sent(out, path, content, at, count)
    ensures Sized(content[at..at + count(path, at)])
    ensures Sent(out + Block(content[at..at + count(path, at)]), path, content, at + count(path, at), count)
  {
    var n := count(path, at);
    OnePiece(out, content[at..at + n], Cut(path, content, at + n, count));
  }

  lemma NothingSent(path: Bytes, content: Bytes, count: (Bytes, nat) -> nat)
    requires Reads(path, content, count)
    ensures Sent([], path, content, 0, count)
  {
    CutDelivers(path, content, 0, count);
    assert [] + Pieces(Cut(path, content, 0, count)) == Pieces(Cut(path, content, 0, count));
  }

  lemma SentAll(out: Bytes, path: Bytes, content: Bytes, count: (Bytes, nat) -> nat)
    requires Reads(path, content, count) && Sent(out, path, content, |content|, count)
    ensures Delivered(Cut(path, content, 0, count)) && out + Block([]) == Pieces(Cut(path, content, 0, count))
  {
    assert Cut(path, content, |content|, count) == [] && Pieces([]) == Block([]);
  }

  /** The reader's loop: each piece behind its length, an empty block at the end. */
  method EmitFile(path: Bytes, content: Bytes, count: (Bytes, nat) -> nat) returns (out: Bytes)
    requires Reads(path, content, count)
    ensures Delivered(Cut(path, content, 0, count)) && out == Pieces(Cut(path, content, 0, count))
  {
    hide Cut, Block, Pieces, Delivered, Sent;
    out := [];
    var at := 0;
    NothingSent(path, content, count);
    while at < |content|
      invariant at <= |content| && Sent(out, path, content, at, count)
      decreases |content| - at
    {
      var n := count(path, at);
      SendOne(out, path, content, at, count);
      out := out + Block(content[at..at + n]);
      at := at + n;
    }
    SentAll(out, path, content, count);
    out := out + Block([]);
  }

  /** One file's part of the stream; nothing when it cannot be read. */
  ghost function FileBytes(path: Bytes, files: map<Bytes, Bytes>, count: (Bytes, nat) -> nat): Bytes {
    if path in files && Sized(path) && Reads(path, files[path], count) then
      CutDelivers(path, files[path], 0, count);
      UNTRACKED + Block(path) + Pieces(Cut(path, files[path], 0, count))
    else []
  }

  /** What the loop over the listed files feeds to the digest. */
  ghost function Body(paths: seq<Bytes>, files: map<Bytes, Bytes>, count: (Bytes, nat) -> nat): Bytes {
    if paths == [] then []
    else Body(paths[..|paths| - 1], files, count) + FileBytes(paths[|paths| - 1], files, count)
  }

  /** The whole stream of a source tree whose files are all readable. */
  ghost predicate IsStream(out: Bytes, status: Bytes, diff: Bytes, paths: seq<Bytes>, files: map<Bytes, Bytes>, count: (Bytes, nat) -> nat)
    requires Sized(status) && Sized(diff)
  {
    && Open(paths, files, count)
    && out == STATUS + Block(status) + TRACKED_DIFF + Block(diff) + Body(paths, files, count)
  }

  lemma BodyGrows(out: Bytes, head: Bytes, paths: seq<Bytes>, i: nat, files: map<Bytes, Bytes>, count: (Bytes, nat) -> nat,
                  file: Bytes)
    requires i < |paths| && out == head + Body(paths[..i], files, count) && file == FileBytes(paths[i], files, count)
    ensures out + file == head + Body(paths[..i + 1], files, count)
  {
    assert paths[..i + 1][..i] == paths[..i];
    ConcatAssociates(head, Body(paths[..i], files, count), file);
  }

  lemma OpenGrows(paths: seq<Bytes>, i: nat, files: map<Bytes, Bytes>, count: (Bytes, nat) -> nat)
    requires i < |paths| && Open(paths[..i], files, count)
    requires paths[i] in files && Sized(paths[i]) && Reads(paths[i], files[paths[i]], count)
    ensures Open(paths[..i + 1], files, count)
  {
    forall p | p in paths[..i + 1]
      ensures p in files && Sized(p) && Reads(p, files[p], count)
    {
      assert p in paths[..i] || p == paths[i];
    }
  }

  /** Reads that are always full. */
  function WholeReads(files: map<Bytes, Bytes>): (Bytes, nat) -> nat {
    (p: Bytes, at: nat) => FullRead(if p in files then |files[p]| else 0, at)
  }

  lemma WholeReadsAreReads(files: map<Bytes, Bytes>, path: Bytes)
    requires path in files
    ensures Reads(path, files[path], WholeReads(files))
  {
    forall at: nat | at < |files[path]|
      ensures 1 <= WholeReads(files)(path, at) <= BLOCK && at + WholeReads(files)(path, at) <= |files[path]|
    {
      assert WholeReads(files)(path, at) == FullRead(|files[path]|, at);
    }
  }

  /** Every file can be read. */
  ghost predicate AllRead(files: map<Bytes, Bytes>, count: (Bytes, nat) -> nat) {
    forall p :: p in files ==> Reads(p, files[p], count)
  }

  /** The release script's stream. Python's reads are always full, its lengths must fit, and a
      file that cannot be opened ends the run. */
  method ReleaseStream(status: Bytes, diff: Bytes, untracked: Bytes, files: map<Bytes, Bytes>)
    returns (r: Result<Bytes, Error>)
    ensures r.Ok? <==> Sized(status) && Sized(diff) && forall p :: p in Entries(untracked) ==> p in files && Sized(p)
    ensures r.Ok? ==> Sized(status) && Sized(diff)
                      && IsStream(r.value, status, diff, Entries(untracked), files, WholeReads(files))
  {
    if !Sized(status) || !Sized(diff) {
      return Err(TooLong);
    }
    var paths := Entries(untracked);
    var out := STATUS + Block(status) + TRACKED_DIFF + Block(diff);
    ghost var head := out;
    for i := 0 to |paths|
      invariant Open(paths[..i], files, WholeReads(files))
      invariant out == head + Body(paths[..i], files, WholeReads(files))
    {
      var path := paths[i];
      assert path in Entries(untracked);
      if !Sized(path) {
        return Err(TooLong);
      }
      if path !in files {
        return Err(Unreadable(path));
      }
      WholeReadsAreReads(files, path);
      var body := EmitFile(path, files[path], WholeReads(files));
      var file := UNTRACKED + Block(path) + body;
      BodyGrows(out, head, paths, i, files, WholeReads(files), file);
      OpenGrows(paths, i, files, WholeReads(files));
      out := out + file;
    }
    assert paths[..|paths|] == paths;
    return Ok(out);
  }

  /** The journey tool takes a path when it is UTF-8 and its file opens. */
  predicate Taken(path: Bytes, files: map<Bytes, Bytes>) { WellFormed(path) && path in files }

  predicate AllTaken(paths: seq<Bytes>, files: map<Bytes, Bytes>) {
    forall i :: 0 <= i < |paths| ==> Taken(paths[i], files)
  }

  method TakeFile(path: Bytes, files: map<Bytes, Bytes>, count: (Bytes, nat) -> nat) returns (r: Result<Bytes, Error>)
    requires Sized(path) && AllRead(files, count)
    ensures r.Ok? <==> Taken(path, files)
    ensures r.Ok? ==> r.value == FileBytes(path, files, count)
  {
    if !WellFormed(path) {
      return Err(NotUtf8(path));
    }
    if path !in files {
      return Err(Unreadable(path));
    }
    var body := EmitFile(path, files[path], count);
    return Ok(UNTRACKED + Block(path) + body);
  }

  lemma TakenGrows(paths: seq<Bytes>, i: nat, files: map<Bytes, Bytes>)
    requires i < |paths| && AllTaken(paths[..i], files)
    ensures AllTaken(paths[..i + 1], files) <==> Taken(paths[i], files)
  {
    assert paths[..i + 1][i] == paths[i];
    assert forall k :: 0 <= k < i ==> paths[..i + 1][k] == paths[..i][k];
  }

  lemma NotAllTaken(paths: seq<Bytes>, i: nat, files: map<Bytes, Bytes>)
    requires i < |paths| && !Taken(paths[i], files)
    ensures !AllTaken(paths, files)
  {
  }

  /** The journey tool's stream. Its reads may come up short, and a path must be UTF-8. */
  method JourneyStream(status: Bytes, diff: Bytes, untracked: Bytes, files: map<Bytes, Bytes>, count: (Bytes, nat) -> nat)
    returns (r: Result<Bytes, Error>)
    requires Sized(status) && Sized(diff)
    requires forall p :: p in Entries(untracked) ==> Sized(p)
    requires AllRead(files, count)
    ensures r.Ok? <==> AllTaken(Entries(untracked), files)
    ensures r.Ok? ==> IsStream(r.value, status, diff, Entries(untracked), files, count)
  {
    var paths := Entries(untracked);
    var out := STATUS + Block(status) + TRACKED_DIFF + Block(diff);
    ghost var head := out;
    for i := 0 to |paths|
      invariant AllTaken(paths[..i], files)
      invariant out == head + Body(paths[..i], files, count)
    {
      var file := TakeFile(paths[i], files, count);
      if file.Err? {
        NotAllTaken(paths, i, files);
        return Err(file.error);
      }
      TakenGrows(paths, i, files);
      BodyGrows(out, head, paths, i, files, count, file.value);
      out := out + file.value;
    }
    assert paths[..|paths|] == paths;
    TakenIsOpen(paths, files, count);
    return Ok(out);
  }

  lemma TakenIsOpen(paths: seq<Bytes>, files: map<Bytes, Bytes>, count: (Bytes, nat) -> nat)
    requires AllTaken(paths, files) && AllRead(files, count) && forall p :: p in paths ==> Sized(p)
    ensures Open(paths, files, count)
  {
    forall p | p in paths
      ensures p in files && Sized(p) && Reads(p, files[p], count)
    {
      var i :| 0 <= i < |paths| && paths[i] == p;
      assert Taken(paths[i], files);
    }
  }

  lemma FilesCons(item: Item, file: Bytes, rest: seq<Item>)
    requires Framable([item] + rest) && Sized(item.path) && Delivered(item.chunks) && file == File(item)
    ensures Framable(rest) && Files([item] + rest) == file + Files(rest)
  {
    var items := [item] + rest;
    assert items[0] == item && items[1..] == rest;
    assert forall i :: 0 <= i < |rest| ==> rest[i] == items[i + 1];
  }

  lemma FramableTail(items: seq<Item>)
    requires items != [] && Framable(items)
    ensures Framable(items[1..]) && Sized(items[0].path) && Delivered(items[0].chunks)
  {
  }

  lemma FramableFront(item: Item, rest: seq<Item>)
    requires Framable(rest) && Sized(item.path) && Delivered(item.chunks)
    ensures Framable([item] + rest)
  {
  }

  lemma FilesConsConcat(item: Item, file: Bytes, rest: seq<Item>, b: seq<Item>)
    requires Sized(item.path) && Delivered(item.chunks) && Framable(rest) && Framable(b) && file == File(item)
    requires Framable(rest + b) && Files(rest + b) == Files(rest) + Files(b)
    ensures Framable([item] + rest) && Framable([item] + (rest + b))
    ensures Files([item] + (rest + b)) == Files([item] + rest) + Files(b)
  {
    hide Files, File, Framable, Delivered;
    FramableFront(item, rest);
    FramableFront(item, rest + b);
    FilesCons(item, file, rest);
    FilesCons(item, file, rest + b);
    ConcatAssociates(file, Files(rest), Files(b));
  }

  lemma {:induction false} FilesConcat(a: seq<Item>, b: seq<Item>)
    requires Framable(a) && Framable(b)
    ensures Framable(a + b) && Files(a + b) == Files(a) + Files(b)
    decreases |a|
  {
    hide Framable, Delivered, File;
    if a == [] {
      assert a + b == b && Files(a) + Files(b) == Files(b);
    } else {
      FramableTail(a);
      FilesConcat(a[1..], b);
      FilesConsConcat(a[0], File(a[0]), a[1..], b);
      Uncons(a);
      ConcatAssociates([a[0]], a[1..], b);
    }
  }

  lemma {:induction false} ItemsConcat(a: seq<Bytes>, b: seq<Bytes>, files: map<Bytes, Bytes>, count: (Bytes, nat) -> nat)
    requires Open(a + b, files, count)
    ensures Open(a, files, count) && Open(b, files, count)
    ensures ItemsOf(a + b, files, count) == ItemsOf(a, files, count) + ItemsOf(b, files, count)
    decreases |a|
  {
    assert forall p :: p in a || p in b ==> p in a + b;
    if a == [] {
      assert a + b == b;
    } else {
      assert (a + b)[0] == a[0] && (a + b)[1..] == a[1..] + b;
      ItemsConcat(a[1..], b, files, count);
    }
  }

  /** The loop's output is the framed list of files. */
  lemma {:induction false} BodyIsFiles(paths: seq<Bytes>, files: map<Bytes, Bytes>, count: (Bytes, nat) -> nat)
    requires Open(paths, files, count)
    ensures Framable(ItemsOf(paths, files, count)) && Body(paths, files, count) == Files(ItemsOf(paths, files, count))
    decreases |paths|
  {
    ItemsAreFramable(paths, files, count);
    if paths == [] {
      assert ItemsOf(paths, files, count) == [];
    } else {
      var front, last := paths[..|paths| - 1], paths[|paths| - 1];
      assert paths == front + [last];
      ItemsConcat(front, [last], files, count);
      BodyIsFiles(front, files, count);
      OneItem(last, files, count);
      var item := Item(last, Cut(last, files[last], 0, count));
      CutDelivers(last, files[last], 0, count);
      OneFile(item);
      FilesConcat(ItemsOf(front, files, count), [item]);
    }
  }

  lemma OneItem(path: Bytes, files: map<Bytes, Bytes>, count: (Bytes, nat) -> nat)
    requires Open([path], files, count)
    ensures ItemsOf([path], files, count) == [Item(path, Cut(path, files[path], 0, count))]
  {
    assert ItemsOf([], files, count) == [];
  }

  lemma OneFile(item: Item)
    requires Framable([item]) && Sized(item.path) && Delivered(item.chunks)
    ensures Files([item]) == File(item)
  {
    assert [item][1..] == [];
  }

  lemma {:induction false} CutsAgree(path: Bytes, content: Bytes, from: nat, a: (Bytes, nat) -> nat, b: (Bytes, nat) -> nat)
    requires from <= |content| && Reads(path, content, a) && Reads(path, content, b)
    requires forall at: nat :: at < |content| ==> a(path, at) == b(path, at)
    ensures Cut(path, content, from, a) == Cut(path, content, from, b)
    decreases |content| - from
  {
    if from < |content| {
      CutsAgree(path, content, from + a(path, from), a, b);
    }
  }

  /** Producers whose reads agree, such as two that always read full blocks, emit one stream. */
  lemma {:induction false} ItemsAgree(paths: seq<Bytes>, files: map<Bytes, Bytes>, a: (Bytes, nat) -> nat, b: (Bytes, nat) -> nat)
    requires Open(paths, files, a) && Open(paths, files, b)
    requires forall p, at: nat :: p in paths && at < |files[p]| ==> a(p, at) == b(p, at)
    ensures ItemsOf(paths, files, a) == ItemsOf(paths, files, b)
    decreases |paths|
  {
    if paths != [] {
      CutsAgree(paths[0], files[paths[0]], 0, a, b);
      ItemsAgree(paths[1..], files, a, b);
    }
  }

  /** Two producers that read full blocks emit the same stream for the same tree. */
  lemma FullReadsAgree(status: Bytes, diff: Bytes, paths: seq<Bytes>, files: map<Bytes, Bytes>,
                       count: (Bytes, nat) -> nat, a: Bytes, b: Bytes)
    requires Sized(status) && Sized(diff)
    requires IsStream(a, status, diff, paths, files, WholeReads(files)) && IsStream(b, status, diff, paths, files, count)
    requires forall p, at: nat :: p in paths && at < |files[p]| ==> count(p, at) == FullRead(|files[p]|, at)
    ensures a == b
  {
    ItemsAgree(paths, files, WholeReads(files), count);
    BodyIsFiles(paths, files, WholeReads(files));
    BodyIsFiles(paths, files, count);
  }

  /** Whatever the reads were on either side, one stream means one source tree. */
  lemma StreamsSeparateTrees(out: Bytes,
                             status: Bytes, diff: Bytes, paths: seq<Bytes>, files: map<Bytes, Bytes>, a: (Bytes, nat) -> nat,
                             status': Bytes, diff': Bytes, paths': seq<Bytes>, files': map<Bytes, Bytes>, b: (Bytes, nat) -> nat)
    requires Sized(status) && Sized(diff) && IsStream(out, status, diff, paths, files, a)
    requires Sized(status') && Sized(diff') && IsStream(out, status', diff', paths', files', b)
    ensures status == status' && diff == diff' && paths == paths'
    ensures forall p :: p in paths ==> p in files && p in files' && files[p] == files'[p]
  {
    BodyIsFiles(paths, files, a);
    BodyIsFiles(paths', files', b);
    StreamsSeparateSources(status, diff, ItemsOf(paths, files, a), status', diff', ItemsOf(paths', files', b));
    ItemsAreFramable(paths, files, a);
    ItemsAreFramable(paths', files', b);
    var named, named' := Named(ItemsOf(paths, files, a)), Named(ItemsOf(paths', files', b));
    assert |paths| == |named| == |named'| == |paths'|;
    forall i | 0 <= i < |paths|
      ensures paths[i] == paths'[i] && files[paths[i]] == files'[paths'[i]]
    {
      assert named[i] == (paths[i], files[paths[i]]) && named'[i] == (paths'[i], files'[paths'[i]]);
    }
  }
}
