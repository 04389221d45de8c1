/** The pure rules about résumé files shared by the résumé upload component
    (components/ResumeUpload.tsx) and the upload page
    (app/upload-resume/page.tsx): what file is accepted, what name it is
    stored under, and how the storage key is read back from its public URL. */
module ResumeFiles {
  import opened Remote
  import opened Text

  /** The parts of a browser `File` the pages look at. */
  datatype FileInfo = FileInfo(name: string, mimeType: string, size: nat)

  const PdfType := "application/pdf"
  /** 5 MiB, the component's size ceiling. */
  const MaxResumeBytes: nat := 5 * 1024 * 1024
  const NotPdfError := "Please upload a PDF file only"
  const TooLargeError := "File size must be less than 5MB"

  datatype Verdict = Accepted | Rejected(message: string)

  /** The component's file check: the type first, then the size. */
  function CheckResumeFile(f: FileInfo): (v: Verdict)
    ensures v.Accepted? <==> f.mimeType == PdfType && f.size <= MaxResumeBytes
    ensures f.mimeType != PdfType ==> v == Rejected(NotPdfError)
    ensures f.mimeType == PdfType && f.size > MaxResumeBytes ==> v == Rejected(TooLargeError)
  {
    if f.mimeType != PdfType then Rejected(NotPdfError)
    else if f.size > 5 * 1024 * 1024 then Rejected(TooLargeError)
    else Accepted
  }

  /** `name.split('.').pop()`: the text after the last '.', or the whole name
      when it has no '.'. */
  function Extension(name: string): (ext: string)
    ensures '.' !in ext
    ensures |ext| <= |name| && ext == name[|name| - |ext|..]
    ensures '.' !in name ==> ext == name
    ensures '.' in name ==> |ext| < |name| && name[|name| - |ext| - 1] == '.'
  {
    LastPieceFacts(name, '.');
    Last(Split(name, "."))
  }

  lemma LastPieceFacts(name: string, c: char)
    ensures var ext := Last(Split(name, [c]));
      && c !in ext
      && |ext| <= |name| && ext == name[|name| - |ext|..]
      && (c !in name ==> ext == name)
      && (c in name ==> |ext| < |name| && name[|name| - |ext| - 1] == c)
  {
    LastPieceFree(name, c);
    LastPiece(name, [c]);
    if c in name {
      LastPieceAfterLast(name, c);
    } else {
      LastPieceWhole(name, c);
    }
  }

  lemma LastPieceAfterLast(name: string, c: char)
    requires c in name
    ensures var ext := Last(Split(name, [c]));
      |ext| < |name| && name[|name| - |ext| - 1] == c
  {
    var i := LastIndex(name, c);
    assert name == name[..i] + [c] + name[i + 1..];
    LastPieceAfter(name[..i], c, name[i + 1..]);
  }

  lemma LastPieceWhole(name: string, c: char)
    requires c !in name
    ensures Last(Split(name, [c])) == name
  {
    NoCharOccurrence(name, c);
    SplitIsSingle(name, [c]);
    FirstPiece(name, [c]);
  }

  lemma LastPieceFree(name: string, c: char)
    ensures c !in Last(Split(name, [c]))
  {
    var ext := Last(Split(name, [c]));
    SplitPiecesFree(name, [c]);
    if c in ext {
      CharOccurrence(ext, c);
      assert false;
    }
  }

  /** `${userId}-${now}.${ext}`, the name a résumé is stored under; `now` is
      the upload time in milliseconds (`Date.now()`). */
  function StoredFileName(userId: string, now: nat, name: string): string {
    userId + "-" + Decimal(now) + "." + Extension(name)
  }

  /** The stored name keeps the extension of the chosen file. */
  lemma ExtensionKept(userId: string, now: nat, name: string)
    ensures Extension(StoredFileName(userId, now, name)) == Extension(name)
  {
    var ext := Extension(name);
    assert StoredFileName(userId, now, name) == (userId + "-" + Decimal(now)) + ['.'] + ext;
    LastPieceAfter(userId + "-" + Decimal(now), '.', ext);
  }

  lemma MiddleEqual(head: string, a: string, b: string, dot: string, tail: string)
    requires head + a + dot + tail == head + b + dot + tail
    ensures a == b
  {
    var x := head + a + dot + tail;
    assert |a| == |b|;
    assert a == x[|head|..|head| + |a|];
  }

  /** Two uploads of the same file by the same user at different
      milliseconds get different stored names. */
  lemma StoredNameUnique(userId: string, m: nat, n: nat, name: string)
    requires StoredFileName(userId, m, name) == StoredFileName(userId, n, name)
    ensures m == n
  {
    var ext := Extension(name);
    MiddleEqual(userId + "-", Decimal(m), Decimal(n), ".", ext);
    DecimalInjective(m, n);
  }

  const ResumesSegment := "/resumes/"

  /** `url.split('/resumes/')[1].split('?')[0]` when the URL has at least two
      pieces, `None` otherwise: the text after the FIRST "/resumes/", cut at
      the first '?' or at the next "/resumes/". */
  function StorageKey(url: string): (key: Option<string>)
    ensures key.Some? <==> Contains(url, ResumesSegment)
    ensures key.Some? ==> KeyAfterFirstSegment(url, key.value)
  {
    var parts := Split(url, ResumesSegment);
    SplitIsSingle(url, ResumesSegment);
    if |parts| >= 2 then
      var key := Split(parts[1], "?")[0];
      StorageKeyFacts(url);
      Some(key)
    else
      None
  }

  /** `key` is what follows the first "/resumes/" of `url`, up to but not
      including the first '?' or the next "/resumes/" (or the end). */
  ghost predicate KeyAfterFirstSegment(url: string, key: string) {
    Find(url, ResumesSegment).Some? &&
    var rest := url[Find(url, ResumesSegment).value + |ResumesSegment|..];
    && '?' !in key && !Contains(key, ResumesSegment)
    && (forall j: nat :: j < |key| ==> !IsAt(rest, ResumesSegment, j))
    && key <= rest
    && (|key| == |rest| || IsAt(rest, "?", |key|) || IsAt(rest, ResumesSegment, |key|))
  }

  /** At most one key fits: the description above fixes the key. */
  lemma KeyAfterFirstSegmentUnique(url: string, k1: string, k2: string)
    requires KeyAfterFirstSegment(url, k1) && KeyAfterFirstSegment(url, k2)
    ensures k1 == k2
  {
    ShorterKeyCannotFit(url, k1, k2);
    ShorterKeyCannotFit(url, k2, k1);
    var rest := url[Find(url, ResumesSegment).value + |ResumesSegment|..];
    assert k1 == rest[..|k1|] == k2;
  }

  /** A fitting key cannot stop short of another fitting key. */
  lemma ShorterKeyCannotFit(url: string, k1: string, k2: string)
    requires KeyAfterFirstSegment(url, k1) && KeyAfterFirstSegment(url, k2)
    ensures |k1| >= |k2|
  {
    if |k1| < |k2| {
      var rest := url[Find(url, ResumesSegment).value + |ResumesSegment|..];
      if IsAt(rest, "?", |k1|) {
        CharAt(rest, "?", |k1|, 0);
        assert false;
      }
    }
  }

  lemma StorageKeyFacts(url: string)
    requires |Split(url, ResumesSegment)| >= 2
    ensures KeyAfterFirstSegment(url, Split(Split(url, ResumesSegment)[1], "?")[0])
  {
    var segment := Split(url, ResumesSegment)[1];
    SecondPiece(url, ResumesSegment);
    var rest := url[Find(url, ResumesSegment).value + |ResumesSegment|..];
    FirstPiece(rest, ResumesSegment);
    FirstPieceEndsAtFirst(rest, ResumesSegment);
    SplitPiecesFree(rest, ResumesSegment);
    CutAtQuery(rest, segment);
  }

  /** The first '?'-piece of the first "/resumes/"-piece of `rest`. */
  lemma CutAtQuery(rest: string, segment: string)
    requires segment <= rest && !Contains(segment, ResumesSegment)
    requires |segment| == |rest| || IsAt(rest, ResumesSegment, |segment|)
    requires forall j: nat :: j < |segment| ==> !IsAt(rest, ResumesSegment, j)
    ensures var key := Split(segment, "?")[0];
      && '?' !in key && !Contains(key, ResumesSegment)
      && (forall j: nat :: j < |key| ==> !IsAt(rest, ResumesSegment, j))
      && key <= rest
      && (|key| == |rest| || IsAt(rest, "?", |key|) || IsAt(rest, ResumesSegment, |key|))
  {
    var key := Split(segment, "?")[0];
    FirstPiece(segment, "?");
    SplitPiecesFree(segment, "?");
    if '?' in key {
      CharOccurrence(key, '?');
      assert false;
    }
    assert segment[..|key|] == key;
    if Contains(key, ResumesSegment) {
      AtInPrefix(segment, ResumesSegment, |key|, Find(key, ResumesSegment).value);
      assert false;
    }
    if |Split(segment, "?")| > 1 {
      assert rest[|key|..|key| + 1] == segment[|key|..|key| + 1];
    }
  }

  /** Reading the key back from a public URL of the form
      `<base>/resumes/<key>[?<query>]` gives the key, provided "/resumes/"
      does not already occur earlier and the key holds neither '?' nor
      "/resumes/". */
  lemma StorageKeyOfPublicUrl(base: string, key: string, query: string)
    requires !Contains(base + "/resumes", ResumesSegment)
    requires '?' !in key && !Contains(key, ResumesSegment)
    requires query == "" || query[0] == '?'
    ensures StorageKey(base + ResumesSegment + key + query) == Some(key)
  {
    var url := base + ResumesSegment + key + query;
    FirstSegmentAt(base, key + query);
    assert url == base + ResumesSegment + (key + query);
    var k := StorageKey(url).value;
    assert KeyAfterFirstSegment(url, k);
    assert url[|base| + |ResumesSegment|..] == key + query;
    OnlyKeyFits(key, query, k);
  }

  lemma FirstSegmentAt(base: string, tail: string)
    requires !Contains(base + "/resumes", ResumesSegment)
    ensures Find(base + ResumesSegment + tail, ResumesSegment) == Some(|base|)
  {
    var url := base + ResumesSegment + tail;
    assert url[|base|..|base| + |ResumesSegment|] == ResumesSegment;
    assert IsAt(url, ResumesSegment, |base|);
    var i := Find(url, ResumesSegment).value;
    assert url[..|base| + 8] == base + "/resumes";
    if i < |base| {
      AtInLongerPrefix(url, ResumesSegment, |base| + 8, i);
      assert false;
    }
  }

  /** The only prefix of `key + query` that is free of '?' and "/resumes/"
      and ends at a cut point is `key` itself. */
  lemma OnlyKeyFits(key: string, query: string, k: string)
    requires '?' !in key && !Contains(key, ResumesSegment)
    requires query == "" || query[0] == '?'
    requires '?' !in k && k <= key + query
    requires var rest := key + query;
      |k| == |rest| || IsAt(rest, "?", |k|) || IsAt(rest, ResumesSegment, |k|)
    ensures k == key
  {
    var rest := key + query;
    assert rest[..|key|] == key;
    assert '?' !in ResumesSegment;
    if |k| < |key| {
      if IsAt(rest, "?", |k|) {
        CharAt(rest, "?", |k|, 0);
        assert false;
      } else if |k| + |ResumesSegment| <= |key| {
        AtInLongerPrefix(rest, ResumesSegment, |key|, |k|);
        assert false;
      } else {
        CharAt(rest, ResumesSegment, |k|, |key| - |k|);
        assert false;
      }
    } else if |k| > |key| {
      assert false;
    } else {
      assert k == rest[..|k|];
    }
  }
}
