/**
  get_filenames<BATCH_SIZE> of include/utils.h: the stems of the first
  BATCH_SIZE regular files with a given extension, in listing order.

  The directory listing is a given sequence of entries; std::filesystem's
  iteration order and the meaning of extension() and stem() are properties of
  the entries, not modelled further.
*/
module Utils {
  import opened Wrappers

  /** One directory entry, as get_filenames looks at it. */
  datatype Entry = Entry(isRegularFile: bool, extension: string, stem: string)

  /** Why get_filenames throws. */
  datatype ListingError =
    | NotEnough(found: nat)  // the runtime_error for too few matches, with the count it reports
    | OutOfRange             // fnames.at(count) with count >= BATCH_SIZE: std::out_of_range

  /** uint8_t, the type of the match counter. */
  const U8_MODULUS: nat := 0x100

  /** The test get_filenames applies per entry: a regular file (not a directory or other entry) with exactly the wanted extension; the stem plays no part. */
  predicate IsMatch(e: Entry, extension: string)
    ensures IsMatch(e, extension) <==> e.isRegularFile && e.extension == extension
  {
    e.isRegularFile && e.extension == extension
  }

  /** The stems of the matching entries of `listing`, in listing order. */
  function Matches(listing: seq<Entry>, extension: string): seq<string>
  {
    if listing == [] then []
    else
      var last := listing[|listing| - 1];
      Matches(listing[..|listing| - 1], extension) + (if IsMatch(last, extension) then [last.stem] else [])
  }

  /** Extending the examined prefix by one entry adds that entry's stem exactly when it matches. */
  lemma MatchesStep(listing: seq<Entry>, i: nat, extension: string)
    requires i < |listing|
    ensures Matches(listing[..i + 1], extension) ==
      Matches(listing[..i], extension) + (if IsMatch(listing[i], extension) then [listing[i].stem] else [])
  {
    assert listing[..i + 1][..i] == listing[..i];
  }

  /** Matches of a concatenated listing are the matches of each part, in order. */
  lemma {:induction false} MatchesAppend(a: seq<Entry>, b: seq<Entry>, extension: string)
    ensures Matches(a + b, extension) == Matches(a, extension) + Matches(b, extension)
  {
    if b == [] {
      assert a + b == a;
    } else {
      assert (a + b)[..|a + b| - 1] == a + b[..|b| - 1];
      MatchesAppend(a, b[..|b| - 1], extension);
    }
  }

  /** Entries that do not match contribute nothing; a matching one contributes its stem: at most one name per entry. */
  lemma {:induction false} MatchesAtMostOnePerEntry(listing: seq<Entry>, extension: string)
    ensures |Matches(listing, extension)| <= |listing|
  {
    if listing != [] {
      MatchesAtMostOnePerEntry(listing[..|listing| - 1], extension);
    }
  }

  /**
    Once the first `i` entries hold `n` matches, the entries after them cannot
    change the first `n` names: the entries after the break are irrelevant.
  */
  lemma LaterEntriesIgnored(listing: seq<Entry>, i: nat, extension: string, n: nat)
    requires i <= |listing|
    requires n <= |Matches(listing[..i], extension)|
    ensures Matches(listing[..i], extension) <= Matches(listing, extension)
    ensures Matches(listing, extension)[..n] == Matches(listing[..i], extension)[..n]
  {
    assert listing == listing[..i] + listing[i..];
    MatchesAppend(listing[..i], listing[i..], extension);
  }

  /** A listing in which every entry matches yields one name per entry. */
  lemma {:induction false} AllMatching(listing: seq<Entry>, extension: string)
    requires forall k :: 0 <= k < |listing| ==> IsMatch(listing[k], extension)
    ensures |Matches(listing, extension)| == |listing|
  {
    if listing != [] {
      AllMatching(listing[..|listing| - 1], extension);
    }
  }

  /** Writing `x` at index `c` of a buffer whose first `c` cells hold `seen` makes its first `c + 1` cells hold `seen + [x]`. */
  lemma BufferSnoc(buffer: seq<string>, c: nat, seen: seq<string>, x: string)
    requires c < |buffer| && buffer[..c] == seen && buffer[c] == x
    ensures buffer[..c + 1] == seen + [x]
  {
  }

  /** Incrementing a uint8_t counter that holds n mod 256 makes it hold n + 1 mod 256. */
  lemma CounterStep(count: nat, n: nat)
    requires count < U8_MODULUS && count == n % U8_MODULUS
    ensures (count + 1) % U8_MODULUS == (n + 1) % U8_MODULUS
  {
  }

  /**
    get_filenames as written. `count` is a uint8_t, so it wraps at 256, and
    fnames.at(count) throws when count is not below BATCH_SIZE. With
    1 <= BATCH_SIZE <= 255 the result is the first BATCH_SIZE matches, or the
    too-few error with the number found; with BATCH_SIZE >= 256 the wrapped
    counter never reaches BATCH_SIZE and the function always throws.
  */
  method GetFilenames(listing: seq<Entry>, extension: string, batchSize: nat) returns (r: Result<seq<string>, ListingError>)
    ensures batchSize == 0 ==>
      r == if |listing| > 0 && IsMatch(listing[0], extension) then Err(OutOfRange) else Ok([])
    ensures 1 <= batchSize < U8_MODULUS ==>
      r == if |Matches(listing, extension)| >= batchSize then Ok(Matches(listing, extension)[..batchSize])
           else Err(NotEnough(|Matches(listing, extension)|))
    ensures batchSize >= U8_MODULUS ==> r == Err(NotEnough(|Matches(listing, extension)| % U8_MODULUS))
  {
    var fnames := new string[batchSize](_ => "");
    var count: nat := 0;
    var i := 0;
    ghost var seen: seq<string> := [];
    while i < |listing|
      invariant 0 <= i <= |listing|
      invariant seen == Matches(listing[..i], extension)
      invariant batchSize == 0 ==> i == 0
      invariant count < U8_MODULUS && count == |seen| % U8_MODULUS
      invariant 1 <= batchSize < U8_MODULUS ==> count == |seen| < batchSize && fnames[..count] == seen
    {
      var entry := listing[i];
      MatchesStep(listing, i, extension);
      if IsMatch(entry, extension) {
        if count >= fnames.Length {
          return Err(OutOfRange);
        }
        CounterStep(count, |seen|);
        fnames[count] := entry.stem;
        if batchSize < U8_MODULUS {
          BufferSnoc(fnames[..], count, seen, entry.stem);
        }
        count := (count + 1) % U8_MODULUS;
        seen := seen + [entry.stem];
      }
      i := i + 1;
      if count == batchSize {
        break;
      }
    }
    if count < batchSize {
      assert listing[..i] == listing;
      return Err(NotEnough(count));
    }
    if 1 <= batchSize < U8_MODULUS {
      assert fnames[..] == seen;
      LaterEntriesIgnored(listing, i, extension, batchSize);
    }
    return Ok(fnames[..]);
  }

  /**
    get_filenames with a counter as wide as BATCH_SIZE, as its documentation
    promises: for every BATCH_SIZE >= 1 the result is the first BATCH_SIZE
    matches, or the too-few error with the number found.
  */
  method GetFilenamesWideCounter(listing: seq<Entry>, extension: string, batchSize: nat) returns (r: Result<seq<string>, ListingError>)
    ensures batchSize == 0 ==>
      r == if |listing| > 0 && IsMatch(listing[0], extension) then Err(OutOfRange) else Ok([])
    ensures batchSize >= 1 ==>
      r == if |Matches(listing, extension)| >= batchSize then Ok(Matches(listing, extension)[..batchSize])
           else Err(NotEnough(|Matches(listing, extension)|))
  {
    var fnames := new string[batchSize](_ => "");
    var count: nat := 0;
    var i := 0;
    ghost var seen: seq<string> := [];
    while i < |listing|
      invariant 0 <= i <= |listing|
      invariant seen == Matches(listing[..i], extension)
      invariant batchSize == 0 ==> i == 0 && count == 0
      invariant batchSize >= 1 ==> count == |seen| < batchSize && fnames[..count] == seen
    {
      var entry := listing[i];
      MatchesStep(listing, i, extension);
      if IsMatch(entry, extension) {
        if count >= fnames.Length {
          return Err(OutOfRange);
        }
        fnames[count] := entry.stem;
        BufferSnoc(fnames[..], count, seen, entry.stem);
        count := count + 1;
        seen := seen + [entry.stem];
      }
      i := i + 1;
      if count == batchSize {
        break;
      }
    }
    if count < batchSize {
      assert listing[..i] == listing;
      return Err(NotEnough(count));
    }
    if batchSize >= 1 {
      assert fnames[..] == seen;
      LaterEntriesIgnored(listing, i, extension, batchSize);
    }
    return Ok(fnames[..]);
  }

  /**
    A directory with 256 matching files and BATCH_SIZE = 256: as written the
    call throws and reports 0 files found; with a wide counter it returns all
    256 names.
  */
  method Batch256Counterexample() returns (asWritten: Result<seq<string>, ListingError>, wide: Result<seq<string>, ListingError>)
    ensures asWritten == Err(NotEnough(0))
    ensures wide.Ok? && |wide.value| == 256
  {
    var listing := seq(256, _ => Entry(true, ".mp4", "video"));
    AllMatching(listing, ".mp4");
    asWritten := GetFilenames(listing, ".mp4", 256);
    wide := GetFilenamesWideCounter(listing, ".mp4", 256);
  }
}
