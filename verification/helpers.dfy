/** The file-name and list helpers of utils/helpers.py: `sanitize_filename`,
    `ensure_file_extension`, `merge_data_sources` and `filter_data`. */
module Helpers {
  import opened Seqs
  import opened Text
  import opened Snapshot

  /** The characters `sanitize_filename` replaces by `_`. */
  const InvalidChars: seq<char> := ['<', '>', ':', '"', '/', '\\', '|', '?', '*']

  /** The characters stripped from both ends of a file name. */
  const EdgeChars: set<char> := {'.', ' '}

  /** The replacement loop: each character of `chars`, in turn, replaced by
      `sub` everywhere. */
  function ReplaceEach(s: string, chars: seq<char>, sub: char): (r: string)
    requires sub !in chars
    ensures |r| == |s|
    ensures forall i :: 0 <= i < |s| ==> r[i] == (if s[i] in chars then sub else s[i])
    decreases |chars|
  {
    if |chars| == 0 then s
    else ReplaceEach(ReplaceChar(s, chars[0], sub), chars[1..], sub)
  }

  /** No character of `s` is one `sanitize_filename` replaces. */
  predicate Safe(s: string) {
    forall i :: 0 <= i < |s| ==> s[i] !in InvalidChars
  }

  /** `sanitize_filename`: invalid characters become `_`, leading and
      trailing dots and spaces are removed, and an empty result becomes
      `output`. The result is never empty, contains no invalid character,
      and neither starts nor ends with a dot or a space. It is `output`
      when the name is made only of dots and spaces (the empty name
      included); otherwise it is the replaced name with its leading and
      trailing run of dots and spaces removed. */
  function SanitizeFilename(filename: string): (r: string)
    ensures |r| > 0
    ensures Safe(r)
    ensures r[0] !in EdgeChars && r[|r| - 1] !in EdgeChars
    ensures (forall i :: 0 <= i < |filename| ==> filename[i] in EdgeChars) ==> r == "output"
    ensures (exists i :: 0 <= i < |filename| && filename[i] !in EdgeChars) ==>
      r == Strip(ReplaceEach(filename, InvalidChars, '_'), EdgeChars)
  {
    var replaced := ReplaceEach(filename, InvalidChars, '_');
    ReplacedIsSafe(filename);
    var stripped := Strip(replaced, EdgeChars);
    SafeStrip(replaced, EdgeChars);
    OutputIsSafe();
    EdgeCharsSurvive(filename, replaced);
    if |stripped| == 0 then "output" else stripped
  }

  /** Replacement leaves dots and spaces where they are and never creates
      one: a position holds a dot or a space after replacement exactly when
      it did before. */
  lemma EdgeCharsSurvive(filename: string, replaced: string)
    requires |replaced| == |filename|
    requires forall i :: 0 <= i < |filename| ==>
      replaced[i] == (if filename[i] in InvalidChars then '_' else filename[i])
    ensures forall i :: 0 <= i < |filename| ==> (replaced[i] in EdgeChars <==> filename[i] in EdgeChars)
  {
    forall i | 0 <= i < |filename| ensures replaced[i] in EdgeChars <==> filename[i] in EdgeChars {
      ReplacedEdge(filename[i], replaced[i]);
    }
  }

  /** One character through the replacement: a dot or a space before
      exactly when it is one after. */
  lemma ReplacedEdge(c: char, d: char)
    requires d == (if c in InvalidChars then '_' else c)
    ensures d in EdgeChars <==> c in EdgeChars
  {
    if c in InvalidChars {
      InvalidCharsAreNotEdge();
      var j :| 0 <= j < |InvalidChars| && InvalidChars[j] == c;
    }
  }

  /** No replaced character is a dot or a space, and neither is `_`. */
  lemma InvalidCharsAreNotEdge()
    ensures forall j :: 0 <= j < |InvalidChars| ==> InvalidChars[j] !in EdgeChars
    ensures '_' !in EdgeChars
  {
  }

  lemma ReplacedIsSafe(filename: string)
    ensures Safe(ReplaceEach(filename, InvalidChars, '_'))
  {
    var r := ReplaceEach(filename, InvalidChars, '_');
    assert '_' !in InvalidChars;
    forall i | 0 <= i < |r| ensures r[i] !in InvalidChars {
      if filename[i] in InvalidChars {
        assert r[i] == '_';
      } else {
        assert r[i] == filename[i];
      }
    }
  }

  lemma OutputIsSafe()
    ensures Safe("output") && "output"[0] !in EdgeChars && "output"[5] !in EdgeChars
  {
  }

  /** Stripping keeps a string safe. */
  lemma SafeStrip(s: string, chars: set<char>)
    requires Safe(s)
    ensures Safe(Strip(s, chars))
  {
    var r := Strip(s, chars);
    forall i | 0 <= i < |r| ensures r[i] !in InvalidChars {
      var j :| 0 <= j < |s| && s[j] == r[i];
    }
  }

  /** Sanitizing a sanitized name changes nothing. */
  lemma SanitizeIdempotent(filename: string)
    ensures SanitizeFilename(SanitizeFilename(filename)) == SanitizeFilename(filename)
  {
    SanitizeKeepsSafeNames(SanitizeFilename(filename));
  }

  /** A name made only of safe characters with no dot or space at either
      end is left exactly as it is. */
  lemma SanitizeKeepsSafeNames(filename: string)
    requires |filename| > 0
    requires Safe(filename)
    requires filename[0] !in EdgeChars && filename[|filename| - 1] !in EdgeChars
    ensures SanitizeFilename(filename) == filename
  {
    NothingToReplace(filename, ReplaceEach(filename, InvalidChars, '_'));
    StripNothing(filename, EdgeChars);
  }

  /** Replacement leaves a safe name as it is. */
  lemma NothingToReplace(filename: string, replaced: string)
    requires Safe(filename) && |replaced| == |filename|
    requires forall i :: 0 <= i < |filename| ==>
      replaced[i] == (if filename[i] in InvalidChars then '_' else filename[i])
    ensures replaced == filename
  {
  }

  /** The extension `ensure_file_extension` works with: `extension` with a
      leading `.` added when it has none. */
  function DottedExtension(extension: string): (r: string)
    ensures StartsWith(r, ".")
    ensures r == extension || r == "." + extension
    ensures StartsWith(extension, ".") ==> r == extension
  {
    if StartsWith(extension, ".") then extension else "." + extension
  }

  /** `ensure_file_extension`: the name unchanged when it already ends with
      the dotted extension, otherwise the name with the extension appended
      once. Either way the result ends with the dotted extension. */
  function EnsureFileExtension(filename: string, extension: string): (r: string)
    ensures EndsWith(r, DottedExtension(extension))
    ensures EndsWith(filename, DottedExtension(extension)) ==> r == filename
    ensures !EndsWith(filename, DottedExtension(extension)) ==> r == filename + DottedExtension(extension)
  {
    var ext := DottedExtension(extension);
    if EndsWith(filename, ext) then filename
    else
      assert (filename + ext)[|filename + ext| - |ext|..] == ext;
      filename + ext
  }

  /** Ensuring the extension twice is the same as once. */
  lemma EnsureFileExtensionIdempotent(filename: string, extension: string)
    ensures EnsureFileExtension(EnsureFileExtension(filename, extension), extension)
         == EnsureFileExtension(filename, extension)
  {
  }

  /** `merge_data_sources`: the sources concatenated in argument order
      (empty sources contribute nothing). */
  method MergeDataSources<T>(sources: seq<seq<T>>) returns (merged: seq<T>)
    ensures merged == Concat(sources)
  {
    merged := [];
    var k := 0;
    while k < |sources|
      invariant 0 <= k <= |sources|
      invariant merged + Concat(sources[k..]) == Concat(sources)
    {
      if |sources[k]| > 0 {
        merged := merged + sources[k];
      }
      assert sources[k..] == [sources[k]] + sources[k + 1..];
      k := k + 1;
    }
  }

  /** An item passes the filters when it has every filter field with an
      equal value. */
  predicate MatchesFilters(item: Dict, filters: Dict) {
    forall field :: field in filters ==> field in item && item[field] == filters[field]
  }

  /** The inner loop of `filter_data` for one item: visits the filter
      fields in some order (the dictionary's) and stops at the first one the
      item lacks or differs on. */
  method ItemMatches(item: Dict, filters: Dict) returns (passes: bool)
    ensures passes <==> MatchesFilters(item, filters)
  {
    passes := true;
    var remaining := filters.Keys;
    while remaining != {}
      invariant remaining <= filters.Keys
      invariant passes <==> forall f :: f in filters.Keys - remaining ==> f in item && item[f] == filters[f]
      decreases |remaining|
    {
      var field :| field in remaining;
      if field !in item || item[field] != filters[field] {
        passes := false;
        return;
      }
      remaining := remaining - {field};
    }
  }

  /** `filter_data`: the data unchanged when there are no filters,
      otherwise the items passing every filter, in order. */
  method FilterData(data: seq<Dict>, filters: Dict) returns (filtered: seq<Dict>)
    ensures |filters| == 0 ==> filtered == data
    ensures filtered == Filter(data, item => MatchesFilters(item, filters))
  {
    if |filters| == 0 {
      FilterAll(data, item => MatchesFilters(item, filters));
      return data;
    }
    filtered := [];
    var k := 0;
    while k < |data|
      invariant 0 <= k <= |data|
      invariant filtered + Filter(data[k..], item => MatchesFilters(item, filters))
             == Filter(data, item => MatchesFilters(item, filters))
    {
      var passes := ItemMatches(data[k], filters);
      assert data[k..] == [data[k]] + data[k + 1..];
      if passes {
        filtered := filtered + [data[k]];
      }
      k := k + 1;
    }
  }
}
