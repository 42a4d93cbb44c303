/** The `.icns` container: a magic word, a length, and length-prefixed entries under four-character types. */
module IcnsContainer {
  import opened Options
  import opened PngRows

  /** An entry's type and the half-open range of the buffer its payload is a view of. */
  datatype Span = Span(kind: string, from: nat, to: nat)

  datatype Entry = Entry(kind: string, payload: seq<Byte>)

  datatype ParseError = NotIcns | Corrupt(kind: string, offset: nat)

  const WORDS: nat := 0x1_0000_0000

  /** Four bytes read as ASCII: the top bit of each is ignored. */
  function Ascii(buffer: seq<Byte>, at: nat): (s: string)
    requires at + 4 <= |buffer|
    ensures |s| == 4
  {
    [(buffer[at] % 128) as char, (buffer[at + 1] % 128) as char,
     (buffer[at + 2] % 128) as char, (buffer[at + 3] % 128) as char]
  }

  function BigEndian(buffer: seq<Byte>, at: nat): (n: nat)
    requires at + 4 <= |buffer|
    ensures n < WORDS
  {
    ((buffer[at] as int * 256 + buffer[at + 1]) * 256 + buffer[at + 2]) * 256 + buffer[at + 3]
  }

  /** The entries from `offset` on, stopping where no entry header fits before `end`. */
  function Spans(buffer: seq<Byte>, end: nat, offset: nat): Result<seq<Span>, ParseError>
    requires end <= |buffer|
    decreases end - offset
  {
    if offset + 8 > end then Ok([])
    else
      var kind, length := Ascii(buffer, offset), BigEndian(buffer, offset + 4);
      if length < 8 || offset + length > end then Err(Corrupt(kind, offset))
      else
        var rest :- Spans(buffer, end, offset + length);
        Ok([Span(kind, offset + 8, offset + length)] + rest)
  }

  /** By type: a later entry replaces an earlier one, and the table of contents is passed over. */
  function Keep(kept: map<string, Span>, span: Span): map<string, Span> {
    if span.kind == "TOC " then kept else kept[span.kind := span]
  }

  function KeepAll(kept: map<string, Span>, spans: seq<Span>): map<string, Span>
    decreases |spans|
  {
    if spans == [] then kept else KeepAll(Keep(kept, spans[0]), spans[1..])
  }

  function EndOf(buffer: seq<Byte>): nat
    requires |buffer| >= 8
  {
    if BigEndian(buffer, 4) < |buffer| then BigEndian(buffer, 4) else |buffer|
  }

  predicate IsContainer(buffer: seq<Byte>) {
    |buffer| >= 8 && Ascii(buffer, 0) == "icns"
  }

  function Parse(buffer: seq<Byte>): Result<map<string, Span>, ParseError> {
    if !IsContainer(buffer) then Err(NotIcns)
    else
      var spans :- Spans(buffer, EndOf(buffer), 8);
      Ok(KeepAll(map[], spans))
  }

  /** What is still to be read, kept after what is, is the whole. */
  ghost predicate Resumes(
    buffer: seq<Byte>, end: nat, offset: nat, kept: map<string, Span>, whole: Result<seq<Span>, ParseError>)
    requires end <= |buffer|
  {
    var rest := Spans(buffer, end, offset);
    if rest.Ok? then whole.Ok? && KeepAll(map[], whole.value) == KeepAll(kept, rest.value) else rest == whole
  }

  /** One entry further, or the end, or an entry that does not fit. */
  lemma ResumesByOne(
    buffer: seq<Byte>, end: nat, offset: nat, kept: map<string, Span>, whole: Result<seq<Span>, ParseError>)
    requires end <= |buffer| && Resumes(buffer, end, offset, kept, whole)
    ensures offset + 8 > end ==> whole.Ok? && KeepAll(map[], whole.value) == kept
    ensures offset + 8 <= end ==>
              var kind, length := Ascii(buffer, offset), BigEndian(buffer, offset + 4);
              if length < 8 || offset + length > end then whole == Err(Corrupt(kind, offset))
              else Resumes(buffer, end, offset + length, Keep(kept, Span(kind, offset + 8, offset + length)), whole)
  {
    hide Ascii, BigEndian, Keep;
    if offset + 8 <= end {
      var kind, length := Ascii(buffer, offset), BigEndian(buffer, offset + 4);
      if length >= 8 && offset + length <= end {
        var rest := Spans(buffer, end, offset + length);
        if rest.Ok? {
          assert ([Span(kind, offset + 8, offset + length)] + rest.value)[1..] == rest.value;
        }
      }
    }
  }

  method ParseIcns(buffer: seq<Byte>) returns (result: Result<map<string, Span>, ParseError>)
    ensures result == Parse(buffer)
  {
    hide Ascii, BigEndian, Spans, KeepAll, Resumes;
    if |buffer| < 8 || Ascii(buffer, 0) != "icns" {
      return Err(NotIcns);
    }
    var declared := BigEndian(buffer, 4);
    var end := if declared < |buffer| then declared else |buffer|;
    var entries: map<string, Span> := map[];
    var offset := 8;
    ghost var whole := Spans(buffer, end, 8);
    ResumesFromStart(buffer, end);
    while offset + 8 <= end
      invariant 8 <= offset
      invariant Resumes(buffer, end, offset, entries, whole)
      decreases end - offset
    {
      ResumesByOne(buffer, end, offset, entries, whole);
      var kind, length := Ascii(buffer, offset), BigEndian(buffer, offset + 4);
      if length < 8 || offset + length > end {
        return Err(Corrupt(kind, offset));
      }
      if kind != "TOC " {
        entries := entries[kind := Span(kind, offset + 8, offset + length)];
      }
      offset := offset + length;
    }
    ResumesByOne(buffer, end, offset, entries, whole);
    return Ok(entries);
  }

  lemma ResumesFromStart(buffer: seq<Byte>, end: nat)
    requires end <= |buffer|
    ensures Resumes(buffer, end, 8, map[], Spans(buffer, end, 8))
  {
    hide Spans, KeepAll;
  }

  // ---------------------------------------------------------------- what the views cover

  /** Payloads lie inside the container, in order, each behind an eight-byte header of its own. */
  ghost predicate Tiled(spans: seq<Span>, offset: nat, end: nat) {
    && (forall i :: 0 <= i < |spans| ==> offset + 8 <= spans[i].from <= spans[i].to <= end)
    && (forall i, j :: 0 <= i < j < |spans| ==> spans[i].to + 8 <= spans[j].from)
  }

  lemma {:induction false} SpansAreTiled(buffer: seq<Byte>, end: nat, offset: nat)
    requires end <= |buffer|
    ensures var spans := Spans(buffer, end, offset); spans.Ok? ==> Tiled(spans.value, offset, end)
    decreases end - offset
  {
    if offset + 8 <= end {
      var length := BigEndian(buffer, offset + 4);
      if length >= 8 && offset + length <= end {
        SpansAreTiled(buffer, end, offset + length);
      }
    }
  }

  /** The last entry of a type, if it is not the table of contents and there is one; else what was there before. */
  ghost predicate LastOfKind(kept: map<string, Span>, before: map<string, Span>, spans: seq<Span>, kind: string) {
    if kind != "TOC " && exists i :: 0 <= i < |spans| && spans[i].kind == kind
    then kind in kept && exists i :: 0 <= i < |spans| && kept[kind] == spans[i] && spans[i].kind == kind
                                     && forall j :: i < j < |spans| ==> spans[j].kind != kind
    else kind in kept <==> kind in before && (kind in kept ==> kept[kind] == before[kind])
  }

  /** The last entry of each type is the one kept. */
  lemma {:induction false} LastOneWins(before: map<string, Span>, spans: seq<Span>, kind: string)
    ensures LastOfKind(KeepAll(before, spans), before, spans, kind)
    decreases |spans|
  {
    if spans != [] {
      var kept, rest := KeepAll(before, spans), spans[1..];
      LastOneWins(Keep(before, spans[0]), rest, kind);
      if kind != "TOC " {
        if i :| 0 <= i < |rest| && rest[i].kind == kind {
          assert spans[i + 1].kind == kind;
          var last :| 0 <= last < |rest| && kept[kind] == rest[last] && rest[last].kind == kind
                      && forall j :: last < j < |rest| ==> rest[j].kind != kind;
          assert spans[last + 1] == rest[last];
          forall j | last + 1 < j < |spans|
            ensures spans[j].kind != kind
          {
            assert spans[j] == rest[j - 1];
          }
        } else {
          forall j | 0 < j < |spans|
            ensures spans[j].kind != kind
          {
            assert spans[j] == rest[j - 1];
          }
        }
      }
    }
  }

  /** No two views handed out share a byte, and none reaches outside the container. */
  lemma ViewsAreDisjoint(buffer: seq<Byte>, a: string, b: string)
    requires var kept := Parse(buffer); kept.Ok? && a in kept.value && b in kept.value && a != b
    ensures var kept := Parse(buffer).value;
            && 16 <= kept[a].from <= kept[a].to <= |buffer|
            && (kept[a].to <= kept[b].from || kept[b].to <= kept[a].from)
            && kept[a].kind == a && a != "TOC "
  {
    var end := EndOf(buffer);
    var spans := Spans(buffer, end, 8).value;
    hide Spans, KeepAll;
    SpansAreTiled(buffer, end, 8);
    LastOneWins(map[], spans, a);
    LastOneWins(map[], spans, b);
    var kept := KeepAll(map[], spans);
    var i :| 0 <= i < |spans| && kept[a] == spans[i] && spans[i].kind == a;
    var j :| 0 <= j < |spans| && kept[b] == spans[j] && spans[j].kind == b;
    assert i < j || j < i;
  }

  // ---------------------------------------------------------------- round trip

  function Word(n: nat): (bytes: seq<Byte>)
    requires n < WORDS
    ensures |bytes| == 4 && BigEndian(bytes, 0) == n
  {
    [n / 256 / 256 / 256, n / 256 / 256 % 256, n / 256 % 256, n % 256]
  }

  predicate IsKind(kind: string) {
    |kind| == 4 && forall c <- kind :: c as int < 128
  }

  function KindBytes(kind: string): (bytes: seq<Byte>)
    requires IsKind(kind)
    ensures |bytes| == 4 && Ascii(bytes, 0) == kind
  {
    assert kind[0] in kind && kind[1] in kind && kind[2] in kind && kind[3] in kind;
    [kind[0] as int, kind[1] as int, kind[2] as int, kind[3] as int]
  }

  predicate Fits(entry: Entry) {
    IsKind(entry.kind) && |entry.payload| + 8 < WORDS
  }

  predicate AllFit(entries: seq<Entry>) {
    forall entry <- entries :: Fits(entry)
  }

  function EntryBytes(entry: Entry): (bytes: seq<Byte>)
    requires Fits(entry)
    ensures |bytes| == 8 + |entry.payload|
  {
    KindBytes(entry.kind) + Word(|entry.payload| + 8) + entry.payload
  }

  function Body(entries: seq<Entry>): seq<Byte>
    requires AllFit(entries)
  {
    if entries == [] then [] else EntryBytes(entries[0]) + Body(entries[1..])
  }

  function Serialize(entries: seq<Entry>): seq<Byte>
    requires AllFit(entries) && |Body(entries)| + 8 < WORDS
  {
    KindBytes("icns") + Word(|Body(entries)| + 8) + Body(entries)
  }

  /** Spans whose bytes are the entries, in order. */
  ghost predicate AreViews(buffer: seq<Byte>, spans: seq<Span>, entries: seq<Entry>) {
    && |spans| == |entries|
    && forall i :: 0 <= i < |spans| ==>
         && spans[i].kind == entries[i].kind
         && spans[i].from <= spans[i].to <= |buffer|
         && buffer[spans[i].from..spans[i].to] == entries[i].payload
  }

  lemma EntryReadBack(buffer: seq<Byte>, offset: nat, entry: Entry)
    requires Fits(entry) && offset <= |buffer| && EntryBytes(entry) <= buffer[offset..]
    ensures offset + 8 + |entry.payload| <= |buffer|
    ensures Ascii(buffer, offset) == entry.kind
    ensures BigEndian(buffer, offset + 4) == 8 + |entry.payload|
    ensures buffer[offset + 8..offset + 8 + |entry.payload|] == entry.payload
  {
    var bytes, kind, word := EntryBytes(entry), KindBytes(entry.kind), Word(|entry.payload| + 8);
    hide EntryBytes, KindBytes, Word, Fits;
    forall i | 0 <= i < |bytes|
      ensures buffer[offset + i] == bytes[i]
    {
      assert buffer[offset..][i] == bytes[i];
    }
    assert bytes == kind + word + entry.payload by {
      EntryBytesAre(entry);
    }
    assert forall i :: 0 <= i < 4 ==> buffer[offset + i] == kind[i];
    assert forall i :: 0 <= i < 4 ==> buffer[offset + (4 + i)] == word[i];
    assert bytes[8..] == entry.payload;
    assert buffer[offset + 8..offset + 8 + |entry.payload|] == bytes[8..];
  }

  lemma EntryBytesAre(entry: Entry)
    requires Fits(entry)
    ensures EntryBytes(entry) == KindBytes(entry.kind) + Word(|entry.payload| + 8) + entry.payload
  {
  }

  lemma {:induction false} SpansReadBack(buffer: seq<Byte>, end: nat, offset: nat, entries: seq<Entry>)
    requires AllFit(entries) && offset <= end <= |buffer| && buffer[offset..end] == Body(entries)
    ensures var spans := Spans(buffer, end, offset); spans.Ok? && AreViews(buffer, spans.value, entries)
    decreases |entries|
  {
    hide EntryBytes, Fits, Ascii, BigEndian;
    if entries != [] {
      var bytes, rest := EntryBytes(entries[0]), entries[1..];
      assert entries[0] in entries;
      assert buffer[offset..end] <= buffer[offset..];
      assert bytes <= buffer[offset..];
      EntryReadBack(buffer, offset, entries[0]);
      assert buffer[offset..end][|bytes|..] == Body(rest);
      assert buffer[offset + |bytes|..end] == buffer[offset..end][|bytes|..];
      SpansReadBack(buffer, end, offset + |bytes|, rest);
    }
  }

  /** What a parser owes a reader: each type's last payload, nothing else, and no table of contents. */
  ghost predicate Holds(buffer: seq<Byte>, kept: map<string, Span>, entries: seq<Entry>, kind: string) {
    if kind != "TOC " && exists i :: 0 <= i < |entries| && entries[i].kind == kind
    then kind in kept && kept[kind].from <= kept[kind].to <= |buffer|
         && exists i :: 0 <= i < |entries| && entries[i].kind == kind
                        && buffer[kept[kind].from..kept[kind].to] == entries[i].payload
                        && forall j :: i < j < |entries| ==> entries[j].kind != kind
    else kind !in kept
  }

  lemma HeaderReadBack(entries: seq<Entry>, after: seq<Byte>)
    requires AllFit(entries) && |Body(entries)| + 8 < WORDS
    ensures var buffer := Serialize(entries) + after;
            IsContainer(buffer) && EndOf(buffer) == |Body(entries)| + 8 && buffer[8..EndOf(buffer)] == Body(entries)
  {
    hide Body, Word, KindBytes, AllFit, Ascii, BigEndian;
    var body := Body(entries);
    MagicReadsBack();
    HeaderParts(KindBytes("icns"), Word(|body| + 8), body, after);
  }

  lemma MagicReadsBack()
    ensures Ascii(KindBytes("icns"), 0) == "icns"
  {
  }

  lemma HeaderParts(magic: seq<Byte>, word: seq<Byte>, body: seq<Byte>, after: seq<Byte>)
    requires |magic| == |word| == 4
    ensures var buffer := magic + word + body + after;
            Ascii(buffer, 0) == Ascii(magic, 0) && BigEndian(buffer, 4) == BigEndian(word, 0)
            && buffer[8..8 + |body|] == body
  {
    var buffer := magic + word + body + after;
    assert forall i :: 0 <= i < 4 ==> buffer[i] == magic[i] && buffer[4 + i] == word[i];
  }

  lemma ViewsHold(buffer: seq<Byte>, spans: seq<Span>, entries: seq<Entry>, kind: string)
    requires AreViews(buffer, spans, entries)
    ensures Holds(buffer, KeepAll(map[], spans), entries, kind)
  {
    hide KeepAll;
    LastOneWins(map[], spans, kind);
    if i :| kind != "TOC " && 0 <= i < |entries| && entries[i].kind == kind {
      assert spans[i].kind == kind;
    }
  }

  /** Parsing undoes serialising, with anything at all after the declared end. */
  lemma ParseUndoesSerialize(entries: seq<Entry>, after: seq<Byte>, kind: string)
    requires AllFit(entries) && |Body(entries)| + 8 < WORDS
    ensures var kept := Parse(Serialize(entries) + after);
            kept.Ok? && Holds(Serialize(entries) + after, kept.value, entries, kind)
  {
    hide Spans, KeepAll, Body, Serialize, AllFit, Ascii, BigEndian, Holds, AreViews;
    var buffer := Serialize(entries) + after;
    HeaderReadBack(entries, after);
    SpansReadBack(buffer, EndOf(buffer), 8, entries);
    ViewsHold(buffer, Spans(buffer, EndOf(buffer), 8).value, entries, kind);
  }
}
