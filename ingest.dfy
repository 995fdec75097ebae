/** Server-side ingestion of a module version's documentation archive
    (`fetchDocsList` in data/stardoc.ts): the archive's entries are scanned in
    order, qualifying entries are decoded and normalised, failures of single
    entries are skipped, and the records are sorted by file name.

    The network fetch, gunzip, tar demultiplexing and protobuf decoding are
    foreign code: they appear here as a response value, a `gunzip` function
    from the body to the tarball (None: not valid gzip), an `untar` function
    from the tarball to the entry sequence (None: not a valid tar stream) and
    a `decode` function from an entry's bytes to a message (None:
    `fromBinary` throws). */
module Ingest {
  import opened Basics
  import opened PlainValues

  /** A tar header: the entry's path and its `type` ("file", "directory", ...). */
  datatype Header = Header(name: string, entryType: string)

  /** One archive entry; `content` is None when the entry's stream emitted 'error'. */
  datatype ArchiveEntry = ArchiveEntry(header: Header, content: Option<seq<bv8>>)

  const DescriptorSuffix: string := ".binaryproto"

  /** Only regular files with the descriptor suffix are decoded. */
  predicate Qualifies(h: Header) {
    h.entryType == "file" && EndsWith(h.name, DescriptorSuffix)
  }

  /** An entry that adds a record: readable, qualifying and decodable. */
  predicate Accepted(e: ArchiveEntry, decode: seq<bv8> -> Option<Value>) {
    e.content.Some? && Qualifies(e.header) && decode(e.content.value).Some?
  }

  /** What one entry's 'end' (or 'error') handler pushes onto `stardocs`. */
  function Contribution(e: ArchiveEntry, decode: seq<bv8> -> Option<Value>): seq<Value> {
    match e.content
    case None => []
    case Some(content) =>
      if Qualifies(e.header) then
        match decode(content)
        case Some(message) => [ToPlain(message)]
        case None => []
      else []
  }

  /** The records collected from a prefix of the entry stream, in arrival order. */
  function Collected(entries: seq<ArchiveEntry>, decode: seq<bv8> -> Option<Value>): seq<Value> {
    if entries == [] then []
    else Collected(entries[..|entries| - 1], decode) + Contribution(entries[|entries| - 1], decode)
  }

  /** The entry handlers of lines 57-87: one iteration per entry, `next()` in every branch. */
  method CollectEntries(entries: seq<ArchiveEntry>, decode: seq<bv8> -> Option<Value>)
    returns (stardocs: seq<Value>)
    ensures stardocs == Collected(entries, decode)
  {
    stardocs := [];
    var i := 0;
    while i < |entries|
      invariant 0 <= i <= |entries|
      invariant stardocs == Collected(entries[..i], decode)
    {
      var entry := entries[i];
      assert entries[..i + 1][..i] == entries[..i];
      assert Collected(entries[..i + 1], decode) == stardocs + Contribution(entry, decode);
      match entry.content {
        case None =>
          // stream 'error': next() without pushing
        case Some(content) =>
          if Qualifies(entry.header) {
            var decoded := decode(content);
            if decoded.Some? {
              stardocs := stardocs + [ToPlain(decoded.value)];
            }
            // a throwing fromBinary is caught and next() is called
          }
      }
      i := i + 1;
    }
    assert entries[..|entries|] == entries;
  }

  /** Collection distributes over concatenation of entry streams. */
  lemma {:induction false} CollectedConcat(a: seq<ArchiveEntry>, b: seq<ArchiveEntry>, decode: seq<bv8> -> Option<Value>)
    ensures Collected(a + b, decode) == Collected(a, decode) + Collected(b, decode)
    decreases |b|
  {
    if b == [] {
      assert a + b == a;
    } else {
      var b' := b[..|b| - 1];
      assert (a + b)[..|a + b| - 1] == a + b';
      CollectedConcat(a, b', decode);
    }
  }

  /** An entry that is not accepted leaves no trace, whatever surrounds it. */
  lemma {:induction false} SkippedEntryLeavesNoTrace(a: seq<ArchiveEntry>, e: ArchiveEntry, b: seq<ArchiveEntry>, decode: seq<bv8> -> Option<Value>)
    requires !Accepted(e, decode)
    ensures Collected(a + [e] + b, decode) == Collected(a, decode) + Collected(b, decode)
  {
    var ae := a + [e];
    assert ae[..|ae| - 1] == a;
    assert Contribution(e, decode) == [];
    assert Collected(ae, decode) == Collected(a, decode) + Contribution(e, decode);
    assert Collected(ae, decode) == Collected(a, decode);
    CollectedConcat(ae, b, decode);
  }

  /** Every collected record is the normalised message of an accepted entry. */
  lemma {:induction false} CollectedSound(entries: seq<ArchiveEntry>, decode: seq<bv8> -> Option<Value>, k: int)
    requires 0 <= k < |Collected(entries, decode)|
    ensures exists i :: 0 <= i < |entries| && Accepted(entries[i], decode) &&
                        Collected(entries, decode)[k] == ToPlain(decode(entries[i].content.value).value)
    decreases |entries|
  {
    var n := |entries|;
    var front := entries[..n - 1];
    if k < |Collected(front, decode)| {
      CollectedSound(front, decode, k);
      var i :| 0 <= i < |front| && Accepted(front[i], decode) &&
               Collected(front, decode)[k] == ToPlain(decode(front[i].content.value).value);
      assert entries[i] == front[i];
    } else {
      assert Accepted(entries[n - 1], decode);
    }
  }

  /** Every accepted entry's normalised message is among the collected records. */
  lemma {:induction false} CollectedComplete(entries: seq<ArchiveEntry>, decode: seq<bv8> -> Option<Value>, i: int)
    requires 0 <= i < |entries| && Accepted(entries[i], decode)
    ensures ToPlain(decode(entries[i].content.value).value) in Collected(entries, decode)
    decreases |entries|
  {
    var n := |entries|;
    if i < n - 1 {
      assert entries[..n - 1][i] == entries[i];
      CollectedComplete(entries[..n - 1], decode, i);
    }
  }

  /** One more entry adds its own contribution. */
  lemma CollectedSnoc(e: seq<ArchiveEntry>, x: ArchiveEntry, decode: seq<bv8> -> Option<Value>)
    ensures Collected(e + [x], decode) == Collected(e, decode) + Contribution(x, decode)
  {
    assert (e + [x])[..|e|] == e;
  }

  lemma SplitAt<T>(s: seq<T>, k: int)
    requires 0 <= k < |s|
    ensures s == s[..k] + [s[k]] + s[k + 1..]
  {
  }

  lemma RemoveAtMultiset<T>(s: seq<T>, k: int)
    requires 0 <= k < |s|
    ensures multiset(s[..k] + s[k + 1..]) == multiset(s) - multiset{s[k]}
  {
    assert s == s[..k] + [s[k]] + s[k + 1..];
  }

  /** Taking one entry out of the stream takes out just its contribution. */
  lemma CollectedRemoveAt(e: seq<ArchiveEntry>, k: int, decode: seq<bv8> -> Option<Value>)
    requires 0 <= k < |e|
    ensures multiset(Collected(e, decode)) ==
              multiset(Collected(e[..k] + e[k + 1..], decode)) + multiset(Contribution(e[k], decode))
  {
    var a, x, b := e[..k], e[k], e[k + 1..];
    SplitAt(e, k);
    CollectedConcat(a + [x], b, decode);
    CollectedSnoc(a, x, decode);
    CollectedConcat(a, b, decode);
    var ca, cx, cb := Collected(a, decode), Contribution(x, decode), Collected(b, decode);
    assert Collected(e, decode) == ca + cx + cb;
    assert Collected(a + b, decode) == ca + cb;
    assert multiset(ca + cx + cb) == multiset(ca) + multiset(cx) + multiset(cb);
  }

  /** The collected multiset depends only on the multiset of entries, not on arrival order. */
  lemma {:induction false} CollectedPermutation(e1: seq<ArchiveEntry>, e2: seq<ArchiveEntry>, decode: seq<bv8> -> Option<Value>)
    requires multiset(e1) == multiset(e2)
    ensures multiset(Collected(e1, decode)) == multiset(Collected(e2, decode))
    decreases |e1|
  {
    if e1 != [] {
      var n := |e1|;
      var x := e1[n - 1];
      var front := e1[..n - 1];
      assert e1 == front + [x];
      assert x in multiset(e2);
      var k :| 0 <= k < |e2| && e2[k] == x;
      var rest2 := e2[..k] + e2[k + 1..];
      RemoveAtMultiset(e1, n - 1);
      assert e1[..n - 1] + e1[n..] == front;
      RemoveAtMultiset(e2, k);
      CollectedPermutation(front, rest2, decode);
      CollectedRemoveAt(e2, k, decode);
      CollectedSnoc(front, x, decode);
    }
  }

  // ---------------------------------------------------------------------
  // Sorting by file

  /** A record's `file`, the sort key; a ModuleInfo message always carries one. */
  function FileOf(v: Value): string {
    if v.Obj? then
      match Lookup(v.properties, "file")
      case Some(Prim(Str(s))) => s
      case _ => ""
    else ""
  }

  predicate SortedByFile(s: seq<Value>) {
    forall i, j :: 0 <= i < j < |s| ==> LessEq(FileOf(s[i]), FileOf(s[j]))
  }

  /** Inserts `x` before the first record whose file is not smaller. */
  function Insert(x: Value, s: seq<Value>): seq<Value> {
    if s == [] || LessEq(FileOf(x), FileOf(s[0])) then [x] + s
    else [s[0]] + Insert(x, s[1..])
  }

  /** `stardocs.sort((a, b) => a.file.localeCompare(b.file))`, a stable sort. */
  function SortByFile(s: seq<Value>): seq<Value> {
    if s == [] then [] else Insert(s[0], SortByFile(s[1..]))
  }

  /** Inserting adds exactly the inserted record. */
  lemma {:induction false} InsertPermutes(x: Value, s: seq<Value>)
    ensures multiset(Insert(x, s)) == multiset(s) + multiset{x}
    decreases |s|
  {
    if !(s == [] || LessEq(FileOf(x), FileOf(s[0]))) {
      InsertPermutes(x, s[1..]);
      assert s == [s[0]] + s[1..];
    }
  }

  /** A record no later than every record of a sorted list may go in front of it. */
  lemma ConsSorted(a: Value, t: seq<Value>)
    requires SortedByFile(t)
    requires forall j :: 0 <= j < |t| ==> LessEq(FileOf(a), FileOf(t[j]))
    ensures SortedByFile([a] + t)
  {
    var u := [a] + t;
    forall i, j | 0 <= i < j < |u|
      ensures LessEq(FileOf(u[i]), FileOf(u[j]))
    {
      if i > 0 {
        assert u[i] == t[i - 1] && u[j] == t[j - 1];
      } else {
        assert u[j] == t[j - 1];
      }
    }
  }

  /** The records of `Insert(x, s)` are `x` and the records of `s`, so a
      bound on both bounds them all. */
  lemma InsertBounded(y: Value, x: Value, s: seq<Value>)
    requires LessEq(FileOf(y), FileOf(x))
    requires forall j :: 0 <= j < |s| ==> LessEq(FileOf(y), FileOf(s[j]))
    ensures forall j :: 0 <= j < |Insert(x, s)| ==> LessEq(FileOf(y), FileOf(Insert(x, s)[j]))
  {
    var t := Insert(x, s);
    InsertPermutes(x, s);
    forall j | 0 <= j < |t|
      ensures LessEq(FileOf(y), FileOf(t[j]))
    {
      assert t[j] in multiset(t);
      if t[j] != x {
        assert t[j] in multiset(s);
        var m :| 0 <= m < |s| && s[m] == t[j];
      }
    }
  }

  lemma {:induction false} InsertKeepsSorted(x: Value, s: seq<Value>)
    requires SortedByFile(s)
    ensures SortedByFile(Insert(x, s))
    ensures multiset(Insert(x, s)) == multiset(s) + multiset{x}
    decreases |s|
  {
    InsertPermutes(x, s);
    if s == [] || LessEq(FileOf(x), FileOf(s[0])) {
      forall j | 0 <= j < |s|
        ensures LessEq(FileOf(x), FileOf(s[j]))
      {
        if j > 0 {
          LessEqTransitive(FileOf(x), FileOf(s[0]), FileOf(s[j]));
        }
      }
      ConsSorted(x, s);
    } else {
      LessEqTotal(FileOf(x), FileOf(s[0]));
      var rest := s[1..];
      assert SortedByFile(rest);
      InsertKeepsSorted(x, rest);
      assert forall j :: 0 <= j < |rest| ==> rest[j] == s[j + 1];
      InsertBounded(s[0], x, rest);
      ConsSorted(s[0], Insert(x, rest));
    }
  }

  /** The resolved list is sorted ascending by file and is a permutation of the collected records. */
  lemma {:induction false} SortByFileCorrect(s: seq<Value>)
    ensures SortedByFile(SortByFile(s))
    ensures multiset(SortByFile(s)) == multiset(s)
    decreases |s|
  {
    if s != [] {
      SortByFileCorrect(s[1..]);
      InsertKeepsSorted(s[0], SortByFile(s[1..]));
      assert s == [s[0]] + s[1..];
    }
  }

  /** Records that agree on their file are the same record. */
  predicate FileDetermines(s: seq<Value>) {
    forall i, j :: 0 <= i < |s| && 0 <= j < |s| && FileOf(s[i]) == FileOf(s[j]) ==> s[i] == s[j]
  }

  /** Two sorted lists of the same records start with the same record. */
  lemma HeadsAgree(a: seq<Value>, b: seq<Value>)
    requires SortedByFile(a) && SortedByFile(b)
    requires multiset(a) == multiset(b)
    requires FileDetermines(a)
    requires a != []
    ensures b != [] && a[0] == b[0]
  {
    assert a[0] in multiset(b);
    var j :| 0 <= j < |b| && b[j] == a[0];
    assert b[0] in multiset(a);
    var i :| 0 <= i < |a| && a[i] == b[0];
    var fa, fb := FileOf(a[0]), FileOf(b[0]);
    assert LessEq(fb, fa) by {
      if j > 0 { assert LessEq(FileOf(b[0]), FileOf(b[j])); } else { LessEqReflexive(fb); }
    }
    assert LessEq(fa, fb) by {
      if i > 0 { assert LessEq(FileOf(a[0]), FileOf(a[i])); } else { LessEqReflexive(fa); }
    }
    LessEqAntisymmetric(fa, fb);
    assert FileOf(a[i]) == FileOf(a[0]);
  }

  lemma DropHead(s: seq<Value>)
    requires s != []
    ensures multiset(s[1..]) == multiset(s) - multiset{s[0]}
  {
    assert s == [s[0]] + s[1..];
  }

  /** Two sorted lists of the same records are equal when the file names identify records. */
  lemma {:induction false} SortedUnique(a: seq<Value>, b: seq<Value>)
    requires SortedByFile(a) && SortedByFile(b)
    requires multiset(a) == multiset(b)
    requires FileDetermines(a)
    ensures a == b
    decreases |a|
  {
    if a == [] {
      assert |b| == |multiset(b)| == 0;
    } else {
      HeadsAgree(a, b);
      DropHead(a);
      DropHead(b);
      var a', b' := a[1..], b[1..];
      assert SortedByFile(a') && SortedByFile(b');
      assert FileDetermines(a');
      SortedUnique(a', b');
      assert a == [a[0]] + a' && b == [b[0]] + b';
    }
  }

  /** Feeding the same records in any order yields the same sorted list. */
  lemma SortOrderIndependent(a: seq<Value>, b: seq<Value>)
    requires multiset(a) == multiset(b)
    requires FileDetermines(a)
    ensures SortByFile(a) == SortByFile(b)
  {
    SortByFileCorrect(a);
    SortByFileCorrect(b);
    var sa := SortByFile(a);
    forall i, j | 0 <= i < |sa| && 0 <= j < |sa| && FileOf(sa[i]) == FileOf(sa[j])
      ensures sa[i] == sa[j]
    {
      assert sa[i] in multiset(a) && sa[j] in multiset(a);
      var p :| 0 <= p < |a| && a[p] == sa[i];
      var q :| 0 <= q < |a| && a[q] == sa[j];
    }
    SortedUnique(sa, SortByFile(b));
  }

  /** Reordering the archive's entries does not change the resolved list, as
      long as no two collected records share a file path. */
  lemma ArchiveOrderIndependent(e1: seq<ArchiveEntry>, e2: seq<ArchiveEntry>, decode: seq<bv8> -> Option<Value>)
    requires multiset(e1) == multiset(e2)
    requires FileDetermines(Collected(e1, decode))
    ensures SortByFile(Collected(e1, decode)) == SortByFile(Collected(e2, decode))
  {
    CollectedPermutation(e1, e2, decode);
    SortOrderIndependent(Collected(e1, decode), Collected(e2, decode));
  }

  // ---------------------------------------------------------------------
  // The whole call

  /** The outcome of `fetch(docsUrl)` and of reading its body. */
  datatype FetchResponse =
    | FetchThrew                                // fetch itself rejected
    | Response(ok: bool, body: Option<seq<bv8>>) // body None: arrayBuffer() rejected

  datatype Rejection = CalledClientSide | ArchiveCorrupt

  /** How the promise returned by `fetchDocsList` ends. `Unsettled`: an
      'error' event on a stream with no listener escapes as an uncaught
      exception, and the promise neither resolves nor rejects. */
  datatype Outcome = Resolved(docs: seq<Value>) | Rejected(reason: Rejection) | Unsettled

  predicate BodyRead(response: FetchResponse) {
    response.Response? && response.ok && response.body.Some?
  }

  /** `fetchDocsList(docsUrl)` as written: `onServer` is `typeof window ===
      'undefined'`, `gunzip` the decompression stage (None: it emits 'error')
      and `untar` the tar parser (None: `extract` emits 'error'). The
      trailing `.on('error', ...)` attaches to the value of the last `.pipe`,
      which is `extract`; nothing listens for errors on the gunzip stream, and
      `pipe` does not forward them. */
  method FetchDocsList(onServer: bool, response: FetchResponse,
                       gunzip: seq<bv8> -> Option<seq<bv8>>,
                       untar: seq<bv8> -> Option<seq<ArchiveEntry>>,
                       decode: seq<bv8> -> Option<Value>)
    returns (outcome: Outcome)
    ensures !onServer ==> outcome == Rejected(CalledClientSide)
    ensures onServer && !BodyRead(response) ==> outcome == Resolved([])
    ensures onServer && BodyRead(response) && gunzip(response.body.value).None? ==>
              outcome == Unsettled
    ensures onServer && BodyRead(response) && gunzip(response.body.value).Some? &&
            untar(gunzip(response.body.value).value).None? ==>
              outcome == Rejected(ArchiveCorrupt)
    ensures onServer && BodyRead(response) && gunzip(response.body.value).Some? &&
            untar(gunzip(response.body.value).value).Some? ==>
              outcome == Resolved(SortByFile(Collected(untar(gunzip(response.body.value).value).value, decode)))
    ensures outcome.Resolved? ==> SortedByFile(outcome.docs)
  {
    if !onServer {
      return Rejected(CalledClientSide);
    }
    match response {
      case FetchThrew =>
        return Resolved([]);
      case Response(ok, body) =>
        if !ok {
          return Resolved([]);
        }
        if body.None? {
          return Resolved([]);
        }
        // The promise below is returned, not awaited: its rejections bypass the catch.
        match gunzip(body.value) {
          case None =>
            return Unsettled;
          case Some(tarball) =>
            match untar(tarball) {
              case None =>
                return Rejected(ArchiveCorrupt);
              case Some(entries) =>
                var stardocs := CollectEntries(entries, decode);
                SortByFileCorrect(stardocs);
                return Resolved(SortByFile(stardocs));
            }
        }
    }
  }

  /** `fetchDocsList` with an error listener on the gunzip stream as well (as
      `stream.pipeline` would install): a body that does not decompress
      rejects like a corrupt tar, and every call settles. */
  method FetchDocsListSettled(onServer: bool, response: FetchResponse,
                              gunzip: seq<bv8> -> Option<seq<bv8>>,
                              untar: seq<bv8> -> Option<seq<ArchiveEntry>>,
                              decode: seq<bv8> -> Option<Value>)
    returns (outcome: Outcome)
    ensures !outcome.Unsettled?
    ensures !onServer ==> outcome == Rejected(CalledClientSide)
    ensures onServer && !BodyRead(response) ==> outcome == Resolved([])
    ensures onServer && BodyRead(response) && gunzip(response.body.value).None? ==>
              outcome == Rejected(ArchiveCorrupt)
    ensures onServer && BodyRead(response) && gunzip(response.body.value).Some? &&
            untar(gunzip(response.body.value).value).None? ==>
              outcome == Rejected(ArchiveCorrupt)
    ensures onServer && BodyRead(response) && gunzip(response.body.value).Some? &&
            untar(gunzip(response.body.value).value).Some? ==>
              outcome == Resolved(SortByFile(Collected(untar(gunzip(response.body.value).value).value, decode)))
    ensures outcome.Resolved? ==> SortedByFile(outcome.docs)
  {
    var asWritten := FetchDocsList(onServer, response, gunzip, untar, decode);
    outcome := if asWritten.Unsettled? then Rejected(ArchiveCorrupt) else asWritten;
  }

  /** A stand-in for gunzip that refuses data without the gzip magic bytes
      `1f 8b`, as the real decompressor does. */
  function GzipMagicOnly(data: seq<bv8>): Option<seq<bv8>> {
    if |data| >= 2 && data[0] == 0x1f && data[1] == 0x8b then Some(data[2..]) else None
  }

  /** An HTML error page served with status 200 (`<!DOCTYPE`): as written,
      the call never settles. */
  method HtmlBodyNeverSettles(untar: seq<bv8> -> Option<seq<ArchiveEntry>>, decode: seq<bv8> -> Option<Value>)
    returns (outcome: Outcome)
    ensures outcome == Unsettled
  {
    var html: seq<bv8> := [0x3c, 0x21, 0x44, 0x4f, 0x43, 0x54, 0x59, 0x50, 0x45];
    outcome := FetchDocsList(true, Response(true, Some(html)), GzipMagicOnly, untar, decode);
  }

  /** The same response, with the gunzip error handled, rejects. */
  method HtmlBodyRejectsWhenHandled(untar: seq<bv8> -> Option<seq<ArchiveEntry>>, decode: seq<bv8> -> Option<Value>)
    returns (outcome: Outcome)
    ensures outcome == Rejected(ArchiveCorrupt)
  {
    var html: seq<bv8> := [0x3c, 0x21, 0x44, 0x4f, 0x43, 0x54, 0x59, 0x50, 0x45];
    outcome := FetchDocsListSettled(true, Response(true, Some(html)), GzipMagicOnly, untar, decode);
  }
}
