/**
 * The upload checks and the chunk selection of the back-end web service.
 */
module App {
  import opened Wrappers
  import opened Text
  import opened Numerals

  const AllowedExtensions: set<string> := {"wav", "mp3", "ogg", "m4a"}

  // ---------------------------------------------------------------------------
  // `allowed_file`

  /** Index of the last `c` in `s`, or `None`. */
  function LastIndexOfChar(s: string, c: char): (r: Option<nat>)
    ensures r.None? <==> c !in s
    ensures r.Some? ==> r.value < |s| && s[r.value] == c && c !in s[r.value + 1..]
  {
    if s == [] then None
    else if s[|s| - 1] == c then Some(|s| - 1)
    else
      var r := LastIndexOfChar(s[..|s| - 1], c);
      assert r.Some? ==> s[r.value + 1..] == s[..|s| - 1][r.value + 1..] + [s[|s| - 1]];
      r
  }

  /** `'.' in filename and filename.rsplit('.', 1)[1].lower() in ALLOWED_EXTENSIONS`. */
  predicate AllowedFile(filename: string) {
    var k := LastIndexOfChar(filename, '.');
    k.Some? && ToLower(filename[k.value + 1..]) in AllowedExtensions
  }

  /** The '.' that `rsplit` splits at is the one with no '.' after it. */
  lemma LastDot(s: string, k: nat)
    requires k < |s| && s[k] == '.' && '.' !in s[k + 1..]
    ensures LastIndexOfChar(s, '.') == Some(k)
  {
    assert s[k] in s;
  }

  /** A name is accepted exactly when it has a '.' and the text after its LAST '.',
      lower-cased, is one of the four audio extensions. */
  lemma AllowedFileMeans(filename: string)
    ensures AllowedFile(filename) <==>
      exists k | 0 <= k < |filename| ::
        filename[k] == '.' && '.' !in filename[k + 1..] && ToLower(filename[k + 1..]) in AllowedExtensions
  {
    if AllowedFile(filename) {
      var k := LastIndexOfChar(filename, '.').value;
      ExtensionAfter(filename, k);
    }
    forall k | 0 <= k < |filename| && filename[k] == '.' && '.' !in filename[k + 1..]
        && ToLower(filename[k + 1..]) in AllowedExtensions
      ensures AllowedFile(filename)
    {
      AllowedAt(filename, k);
    }
  }

  lemma AllowedAt(filename: string, k: nat)
    requires k < |filename| && filename[k] == '.' && '.' !in filename[k + 1..]
    requires ToLower(filename[k + 1..]) in AllowedExtensions
    ensures AllowedFile(filename)
  {
    LastDot(filename, k);
  }

  lemma ExtensionAfter(filename: string, k: nat)
    requires LastIndexOfChar(filename, '.') == Some(k)
    ensures k < |filename| && filename[k] == '.' && '.' !in filename[k + 1..]
  {
  }

  /** Only the last extension counts: `a.wav.txt` is refused. */
  lemma DoubleExtensionRefused()
    ensures !AllowedFile("a.wav.txt")
  {
    var s := "a.wav.txt";
    assert s[5] == '.' && s[6..] == "txt";
    LastDot(s, 5);
  }

  /** `a.txt.wav` and `.wav` are accepted. */
  lemma LastExtensionAccepted()
    ensures AllowedFile("a.txt.wav") && AllowedFile(".wav")
  {
    var s := "a.txt.wav";
    assert s[5] == '.' && s[6..] == "wav" && '.' !in s[6..];
    LastDot(s, 5);
    assert ToLower("wav") == "wav";
    var t := ".wav";
    assert t[1..] == "wav";
    LastDot(t, 0);
  }

  /** Letter case does not matter: `x.WAV` is accepted; a name without '.' is not. */
  lemma UpperCaseAccepted()
    ensures AllowedFile("x.WAV") && !AllowedFile("wav")
  {
    var s := "x.WAV";
    assert s[2..] == "WAV";
    LastDot(s, 1);
    assert ToLower("WAV") == "wav";
  }

  // ---------------------------------------------------------------------------
  // `process_audio`: the checks made before any audio is read

  datatype Rejection = NoSelectedFile | TypeNotAllowed

  /** The HTTP status of each rejection. */
  function RejectionStatus(r: Rejection): (code: nat)
    ensures code == 400
  {
    match r
    case NoSelectedFile => 400
    case TypeNotAllowed => 400
  }

  /** `strftime('%Y-%m-%d')` of today's date: the year is written out in full, which is four
      digits from the year 1000 on. */
  function Today(today: Date): (r: string)
    requires ValidDate(today) && today.year >= 1000
    ensures |r| == 10 && r[4] == '-' && r[7] == '-'
    ensures AllDigits(r[..4]) && AllDigits(r[5..7]) && AllDigits(r[8..])
    ensures DecimalValue(r[..4]) == today.year && DecimalValue(r[5..7]) == today.month
    ensures DecimalValue(r[8..]) == today.day
  {
    IsoDateShape(today);
    IsoDate(today)
  }

  /** The file name is checked first (missing or empty), then its extension; the visit
      date, when the form does not carry one, is today's. The result is the visit date the
      rest of the request uses. */
  function ValidateUpload(filename: Option<string>, visitDate: Option<string>, today: Date): (r: Result<string, Rejection>)
    requires ValidDate(today) && today.year >= 1000
    ensures r == Err(NoSelectedFile) <==> filename.None? || filename.value == []
    ensures r == Err(TypeNotAllowed) <==> filename.Some? && filename.value != [] && !AllowedFile(filename.value)
    ensures r.Ok? ==> r.value == if visitDate.Some? then visitDate.value else Today(today)
  {
    if filename.None? || filename.value == [] then Err(NoSelectedFile)
    else if !AllowedFile(filename.value) then Err(TypeNotAllowed)
    else Ok(if visitDate.Some? then visitDate.value else Today(today))
  }

  // ---------------------------------------------------------------------------
  // `complete_stream`: which stored files make up the recording

  /** Python's ordering of strings: by code point, a proper prefix first. */
  predicate LessEq(a: string, b: string)
    decreases |a|
  {
    a == [] || (b != [] && (a[0] < b[0] || (a[0] == b[0] && LessEq(a[1..], b[1..]))))
  }

  lemma {:induction false} LessEqTotal(a: string, b: string)
    ensures LessEq(a, b) || LessEq(b, a)
    decreases |a|
  {
    if a != [] && b != [] && a[0] == b[0] {
      LessEqTotal(a[1..], b[1..]);
    }
  }

  lemma {:induction false} LessEqReflexive(a: string)
    ensures LessEq(a, a)
    decreases |a|
  {
    if a != [] {
      LessEqReflexive(a[1..]);
    }
  }

  lemma {:induction false} LessEqAntisymmetric(a: string, b: string)
    requires LessEq(a, b) && LessEq(b, a)
    ensures a == b
    decreases |a|
  {
    if a != [] {
      LessEqAntisymmetric(a[1..], b[1..]);
      assert a == [a[0]] + a[1..] && b == [b[0]] + b[1..];
    }
  }

  lemma {:induction false} LessEqTransitive(a: string, b: string, c: string)
    requires LessEq(a, b) && LessEq(b, c)
    ensures LessEq(a, c)
    decreases |a|
  {
    if a != [] && a[0] == b[0] && b[0] == c[0] {
      LessEqTransitive(a[1..], b[1..], c[1..]);
    }
  }

  predicate Sorted(s: seq<string>) {
    forall i | 0 <= i < |s| - 1 :: LessEq(s[i], s[i + 1])
  }

  /** Inserts `x` before the first element it does not exceed. */
  function Insert(x: string, s: seq<string>): (r: seq<string>)
    requires Sorted(s)
    ensures Sorted(r) && multiset(r) == multiset(s) + multiset{x}
    ensures |r| == |s| + 1
    ensures r != [] && (r[0] == x || (s != [] && r[0] == s[0]))
  {
    if s == [] then [x]
    else if LessEq(x, s[0]) then [x] + s
    else
      var rest := Insert(x, s[1..]);
      LessEqTotal(x, s[0]);
      assert s == [s[0]] + s[1..];
      [s[0]] + rest
  }

  /** `sorted(xs)`. */
  function Sort(xs: seq<string>): (r: seq<string>)
    ensures Sorted(r) && multiset(r) == multiset(xs)
  {
    if xs == [] then []
    else
      assert xs == [xs[0]] + xs[1..];
      Insert(xs[0], Sort(xs[1..]))
  }

  /** The names starting with `chunk_`, in the order listed. */
  function ChunkNames(listing: seq<string>): (r: seq<string>)
    ensures forall f :: f in r <==> f in listing && "chunk_" <= f
    ensures forall f :: multiset(r)[f] == if "chunk_" <= f then multiset(listing)[f] else 0
  {
    if listing == [] then []
    else
      assert listing == [listing[0]] + listing[1..];
      if "chunk_" <= listing[0] then [listing[0]] + ChunkNames(listing[1..])
      else ChunkNames(listing[1..])
  }

  /** The chunk files of a session, in the order they are joined. */
  function ChunkFiles(listing: seq<string>): (r: seq<string>)
    ensures Sorted(r)
    ensures forall f :: f in r <==> f in listing && "chunk_" <= f
    ensures forall f :: multiset(r)[f] == if "chunk_" <= f then multiset(listing)[f] else 0
  {
    var r := Sort(ChunkNames(listing));
    assert forall f :: f in r <==> f in multiset(r);
    r
  }

  lemma SortedTail(s: seq<string>)
    requires Sorted(s) && s != []
    ensures Sorted(s[1..])
  {
    forall i | 0 <= i < |s[1..]| - 1
      ensures LessEq(s[1..][i], s[1..][i + 1])
    {
      assert s[1..][i] == s[i + 1] && s[1..][i + 1] == s[i + 2];
    }
  }

  lemma MultisetTail(a: seq<string>, b: seq<string>)
    requires a != [] && b != [] && a[0] == b[0] && multiset(a) == multiset(b)
    ensures multiset(a[1..]) == multiset(b[1..])
  {
    assert a == [a[0]] + a[1..] && b == [b[0]] + b[1..];
    assert multiset(a) == multiset{a[0]} + multiset(a[1..]);
    assert multiset(b) == multiset{b[0]} + multiset(b[1..]);
    forall x
      ensures multiset(a[1..])[x] == multiset(b[1..])[x]
    {
      assert multiset(a)[x] == multiset{a[0]}[x] + multiset(a[1..])[x];
      assert multiset(b)[x] == multiset{b[0]}[x] + multiset(b[1..])[x];
    }
  }

  /** A sorted sequence starts with its least element. */
  lemma {:induction false} SortedHead(s: seq<string>, y: string)
    requires Sorted(s) && y in s
    ensures LessEq(s[0], y)
  {
    LessEqReflexive(y);
    if s[0] != y {
      assert s == [s[0]] + s[1..];
      assert y in s[1..];
      SortedTail(s);
      SortedHead(s[1..], y);
      LessEqTransitive(s[0], s[1], y);
    }
  }

  /** Two sorted arrangements of the same names are the same sequence. */
  lemma {:induction false} SortedUnique(a: seq<string>, b: seq<string>)
    requires Sorted(a) && Sorted(b) && multiset(a) == multiset(b)
    ensures a == b
  {
    if a != [] {
      assert a[0] in multiset(b);
      assert b != [] && b[0] in multiset(a);
      SortedHead(a, b[0]);
      SortedHead(b, a[0]);
      LessEqAntisymmetric(a[0], b[0]);
      MultisetTail(a, b);
      SortedTail(a);
      SortedTail(b);
      SortedUnique(a[1..], b[1..]);
      assert a == [a[0]] + a[1..] && b == [b[0]] + b[1..];
    }
  }

  /** The directory listing's order does not matter: the same names always give the same
      chunk files in the same order. */
  lemma ListingOrderIrrelevant(l1: seq<string>, l2: seq<string>)
    requires multiset(l1) == multiset(l2)
    ensures ChunkFiles(l1) == ChunkFiles(l2)
  {
    var a, b := ChunkFiles(l1), ChunkFiles(l2);
    assert multiset(a) == multiset(b) by {
      forall f ensures multiset(a)[f] == multiset(b)[f] {
      }
    }
    SortedUnique(a, b);
  }

  /** The outcome of `complete_stream` before any audio is decoded. */
  datatype StreamError = NoSessionId | SessionNotFound | Internal

  function StreamStatus(e: StreamError): (code: nat)
    ensures e == NoSessionId <==> code == 400
    ensures e == SessionNotFound <==> code == 404
    ensures e == Internal <==> code == 500
  {
    match e
    case NoSessionId => 400
    case SessionNotFound => 404
    case Internal => 500
  }

  /** The session id is checked, then the session directory, then the chunk files. The
      "no chunks" rejection is raised inside the handler's catch-all, which turns it into
      an internal error. */
  function SelectChunks(sessionId: Option<string>, sessionExists: bool, listing: seq<string>): (r: Result<seq<string>, StreamError>)
    ensures r == Err(NoSessionId) <==> sessionId.None? || sessionId.value == []
    ensures r == Err(SessionNotFound) <==> sessionId.Some? && sessionId.value != [] && !sessionExists
    ensures r == Err(Internal) <==>
      sessionId.Some? && sessionId.value != [] && sessionExists && forall f | f in listing :: !("chunk_" <= f)
    ensures r.Ok? ==> r.value == ChunkFiles(listing) && r.value != []
  {
    if sessionId.None? || sessionId.value == [] then Err(NoSessionId)
    else if !sessionExists then Err(SessionNotFound)
    else
      var files := ChunkFiles(listing);
      assert files != [] ==> files[0] in files;
      if files == [] then Err(Internal) else Ok(files)
  }
}
