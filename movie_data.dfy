/**
 * The data logic inside MainViewModel, with the results of its network and
 * database calls taken as inputs: the price-response sanitiser of getPriceChange,
 * the merge of getImagesAndAnnotations, the sort of getMoneyRecords, the
 * document paths and the null-id guards.
 */
module MovieData {
  import opened Option
  import opened KotlinText
  import opened KotlinCollections
  import opened Records

  // ----- getPriceChange -----

  /** The text the reading loop appends: every line trimmed, the lines joined with no separator. */
  function JoinTrimmed(lines: seq<string>): string {
    if lines == [] then "" else JoinTrimmed(lines[..|lines| - 1]) + Trim(lines[|lines| - 1])
  }

  /**
   * The replace chain `.replace("\"", "").replace(" ", "").replace("$", "")`: every
   * double quote, space and dollar sign removed, every other character kept.
   */
  function StripPriceChars(s: string): (r: string)
    ensures '"' !in r && ' ' !in r && '$' !in r
    ensures multiset(r) == multiset(s)['"' := 0][' ' := 0]['$' := 0]
  {
    var r1 := RemoveAll(s, '"');
    var r2 := RemoveAll(r1, ' ');
    var r := RemoveAll(r2, '$');
    assert '"' !in r2 by { assert multiset(r2)['"'] == 0; }
    assert '"' !in r && ' ' !in r by { assert multiset(r)['"'] == 0 && multiset(r)[' '] == 0; }
    r
  }

  /**
   * The sanitiser works piece by piece, and on one character it keeps exactly the
   * characters other than `"`, space and `$`; so the kept characters stay in order.
   */
  lemma StripPriceCharsAppend(a: string, b: string)
    ensures StripPriceChars(a + b) == StripPriceChars(a) + StripPriceChars(b)
  {
    RemoveAllAppend(a, b, '"');
    RemoveAllAppend(RemoveAll(a, '"'), RemoveAll(b, '"'), ' ');
    RemoveAllAppend(RemoveAll(RemoveAll(a, '"'), ' '), RemoveAll(RemoveAll(b, '"'), ' '), '$');
  }

  lemma StripPriceCharsSingle(x: char)
    ensures StripPriceChars([x]) == if x in "\" $" then [] else [x]
  {
    RemoveAllSingle(x, '"');
    if x != '"' {
      RemoveAllSingle(x, ' ');
      if x != ' ' {
        RemoveAllSingle(x, '$');
      }
    }
  }

  /** Stripping twice is stripping once. */
  lemma StripPriceCharsIdempotent(s: string)
    ensures StripPriceChars(StripPriceChars(s)) == StripPriceChars(s)
  {
    var r := StripPriceChars(s);
    assert RemoveAll(r, '"') == r;
    assert RemoveAll(r, ' ') == r;
    assert RemoveAll(r, '$') == r;
  }

  /**
   * What getPriceChange returns when the response consists of `lines` and reading
   * throws when it asks for line `failsAt` (0 when the connection itself fails):
   * the lines appended before the exception, sanitised.
   */
  function PriceText(lines: seq<string>, failsAt: Option<nat>): string {
    var read := if failsAt.Some? && failsAt.value < |lines| then failsAt.value else |lines|;
    StripPriceChars(JoinTrimmed(lines[..read]))
  }

  /**
   * A price the service answers quoted and followed by a space, `"<p>" `, comes
   * back as the bare `p` (when `p` has no quote, space or dollar sign of its own).
   */
  lemma PriceTextOfQuotedPrice(p: string)
    requires '"' !in p && ' ' !in p && '$' !in p
    ensures PriceText(["\"" + p + "\" "], None) == p
  {
    TrimOfQuotedPrice(p);
    RemoveQuotes(p);
    PriceTextOfSingleLine("\"" + p + "\" ", "\"" + p + "\"", p);
  }

  /** A one-line response whose trimmed text loses only its quotes to the sanitiser. */
  lemma PriceTextOfSingleLine(line: string, quoted: string, p: string)
    requires Trim(line) == quoted && RemoveAll(quoted, '"') == p && ' ' !in p && '$' !in p
    ensures PriceText([line], None) == p
  {
    JoinTrimmedSingle(line);
    assert [line][..1] == [line];
  }

  lemma JoinTrimmedSingle(line: string)
    ensures JoinTrimmed([line]) == Trim(line)
  {
    var none: seq<string> := [];
    assert [line][..0] == none;
  }

  lemma RemoveQuotes(p: string)
    requires '"' !in p
    ensures RemoveAll("\"" + p + "\"", '"') == p
  {
    var q := "\"";
    assert RemoveAll(q, '"') == [];
    RemoveAllAppend(q + p, q, '"');
    RemoveAllAppend(q, p, '"');
  }

  lemma TrimOfQuotedPrice(p: string)
    ensures Trim("\"" + p + "\" ") == "\"" + p + "\""
  {
    var quoted := "\"" + p + "\"";
    var raw := "\"" + p + "\" ";
    assert raw == quoted + " ";
    var n := |raw|;
    assert raw[0] == '"' && raw[n - 2] == '"' && raw[n - 1] == ' ';
    assert LeadingWhitespaceEnd(raw, 0) == 0;
    assert TrailingWhitespaceStart(raw, 0, n - 1) == n - 1;
    assert TrailingWhitespaceStart(raw, 0, n) == n - 1;
    assert raw[0..n - 1] == quoted;
  }

  /** A connection that fails before any line is read yields the empty string. */
  lemma PriceTextOfFailedConnection(lines: seq<string>)
    ensures PriceText(lines, Some(0)) == ""
  {
    assert lines[..0] == [];
  }

  // ----- getImagesAndAnnotations -----

  /** `substringAfterLast("/").substringBeforeLast(".")`: a storage path's file name without extension. */
  function TruncateImageName(path: string): (name: string)
    ensures '/' !in name
    ensures '/' !in path && '.' !in path ==> name == path
  {
    SubstringBeforeLast(SubstringAfterLast(path, '/'), '.')
  }

  function TruncatedNames(paths: seq<string>): (names: seq<string>)
    ensures |names| == |paths|
    ensures forall i :: 0 <= i < |paths| ==> names[i] == TruncateImageName(paths[i])
  {
    seq(|paths|, i requires 0 <= i < |paths| => TruncateImageName(paths[i]))
  }

  function Names(annotations: seq<AnnotatedImage>): (names: seq<string>)
    ensures |names| == |annotations|
    ensures forall i :: 0 <= i < |annotations| ==> names[i] == annotations[i].name
  {
    seq(|annotations|, i requires 0 <= i < |annotations| => annotations[i].name)
  }

  /** `annotations.find { it.name == name }`: the position of the first annotation filed under `name`. */
  function FindByName(annotations: seq<AnnotatedImage>, name: string): (r: Option<nat>)
    ensures r.Some? ==> r.value < |annotations| && annotations[r.value].name == name
    ensures r.Some? ==> forall j :: 0 <= j < r.value ==> annotations[j].name != name
    ensures r.None? <==> forall j :: 0 <= j < |annotations| ==> annotations[j].name != name
  {
    if annotations == [] then None
    else if annotations[0].name == name then Some(0)
    else match FindByName(annotations[1..], name)
      case None => None
      case Some(i) => Some(i + 1)
  }

  /** `find { ... }?.annotation.orEmpty()`: that annotation's text, or "" when there is none. */
  function AnnotationFor(annotations: seq<AnnotatedImage>, name: string): string {
    match FindByName(annotations, name)
    case Some(i) => annotations[i].annotation
    case None => ""
  }

  /** The keys of a merged result, in order. */
  function Keys(m: seq<(string, string)>): (keys: seq<string>)
    ensures |keys| == |m| && forall i :: 0 <= i < |m| ==> keys[i] == m[i].0
  {
    seq(|m|, i requires 0 <= i < |m| => m[i].0)
  }

  /**
   * The merge of getImagesAndAnnotations, `(truncatedFilenames + names).distinct()
   * .associateWith { ... }`, as the insertion-ordered list of its entries: one entry
   * per name that an image or an annotation carries, holding that name's annotation.
   */
  function MergeImagesAndAnnotations(imagePaths: seq<string>, annotations: seq<AnnotatedImage>)
    : (m: seq<(string, string)>)
    ensures NoDuplicates(Keys(m))
    ensures forall i :: 0 <= i < |m| ==>
      m[i].0 in TruncatedNames(imagePaths) || m[i].0 in Names(annotations)
    ensures forall i :: 0 <= i < |imagePaths| ==> TruncateImageName(imagePaths[i]) in Keys(m)
    ensures forall i :: 0 <= i < |annotations| ==> annotations[i].name in Keys(m)
    ensures forall i :: 0 <= i < |m| ==> m[i].1 == AnnotationFor(annotations, m[i].0)
  {
    var all := TruncatedNames(imagePaths) + Names(annotations);
    var keys := Distinct(all);
    var m := seq(|keys|, i requires 0 <= i < |keys| => (keys[i], AnnotationFor(annotations, keys[i])));
    assert Keys(m) == keys;
    forall i | 0 <= i < |imagePaths| ensures TruncateImageName(imagePaths[i]) in keys {
      assert all[i] == TruncateImageName(imagePaths[i]);
    }
    forall i | 0 <= i < |annotations| ensures annotations[i].name in keys {
      assert all[|imagePaths| + i] == annotations[i].name;
    }
    m
  }

  /** The entries come in the order in which their names first occur among the images, then the annotations. */
  lemma MergedKeysInFirstOccurrenceOrder(imagePaths: seq<string>, annotations: seq<AnnotatedImage>, i: nat, j: nat)
    requires i < j < |MergeImagesAndAnnotations(imagePaths, annotations)|
    ensures var all, m := TruncatedNames(imagePaths) + Names(annotations), MergeImagesAndAnnotations(imagePaths, annotations);
      m[i].0 in all && m[j].0 in all && FirstIndexOf(all, m[i].0) < FirstIndexOf(all, m[j].0)
  {
    var all := TruncatedNames(imagePaths) + Names(annotations);
    DistinctKeepsFirstOccurrenceOrder(all, i, j);
  }

  // ----- the shared upload timestamp -----

  /** The storage path handleImageUploadResult gives the picked image: `movies/$currentMovieId/$time.jpg`. */
  function UploadedImagePath(currentMovieId: Option<int>, time: int): string {
    "movies/" + NullableToString(currentMovieId) + "/" + IntToString(time) + ".jpg"
  }

  /** The annotation document it writes for the same upload: `AnnotatedImage(time.toString(), annotation)`. */
  function UploadedAnnotation(time: int, annotation: string): AnnotatedImage {
    AnnotatedImage(IntToString(time), annotation)
  }

  /** An image stored as `<anything>/<time>.jpg` truncates back to the text of `time`. */
  lemma UploadedImageNameIsTimestamp(prefix: string, time: int)
    ensures TruncateImageName(prefix + "/" + IntToString(time) + ".jpg") == IntToString(time)
  {
    var t := IntToString(time);
    NotInIntToString(time, '/');
    NotInIntToString(time, '.');
    var file := t + ['.'] + "jpg";
    assert prefix + "/" + t + ".jpg" == prefix + ['/'] + file;
    SubstringAfterLastOfSuffix(prefix, '/', file);
    SubstringBeforeLastOfSuffix(t, '.', "jpg");
  }

  /**
   * An image and an annotation uploaded together end up as one entry: when the
   * listing holds the image and the uploaded annotation is the first filed under
   * its time, the merge holds the entry (time, annotation), and every entry for
   * that time is this one (the merge's keys are distinct).
   */
  lemma UploadedPairMergesIntoOneEntry(imagePaths: seq<string>, annotations: seq<AnnotatedImage>,
                                        p: nat, q: nat, prefix: string, time: int, annotation: string)
    requires p < |imagePaths| && imagePaths[p] == prefix + "/" + IntToString(time) + ".jpg"
    requires q < |annotations| && annotations[q] == UploadedAnnotation(time, annotation)
    requires forall j :: 0 <= j < q ==> annotations[j].name != IntToString(time)
    ensures TruncateImageName(imagePaths[p]) == annotations[q].name
    ensures (IntToString(time), annotation) in MergeImagesAndAnnotations(imagePaths, annotations)
    ensures var m := MergeImagesAndAnnotations(imagePaths, annotations);
      forall k :: 0 <= k < |m| && m[k].0 == IntToString(time) ==> m[k].1 == annotation
  {
    var t := IntToString(time);
    UploadedImageNameIsTimestamp(prefix, time);
    FirstFiledAnnotation(annotations, q, t);
    MergeHasEntryFor(imagePaths, annotations, q);
  }

  /** The annotation found for a name is that of the first annotation filed under it. */
  lemma FirstFiledAnnotation(annotations: seq<AnnotatedImage>, q: nat, name: string)
    requires q < |annotations| && annotations[q].name == name
    requires forall j :: 0 <= j < q ==> annotations[j].name != name
    ensures AnnotationFor(annotations, name) == annotations[q].annotation
  {
    var r := FindByName(annotations, name);
    assert r.Some?;
  }

  /** Every annotation's name has its entry in the merge. */
  lemma MergeHasEntryFor(imagePaths: seq<string>, annotations: seq<AnnotatedImage>, q: nat)
    requires q < |annotations|
    ensures var name := annotations[q].name;
      (name, AnnotationFor(annotations, name)) in MergeImagesAndAnnotations(imagePaths, annotations)
  {
    var m := MergeImagesAndAnnotations(imagePaths, annotations);
    var name := annotations[q].name;
    assert name in Keys(m);
    var k :| 0 <= k < |m| && Keys(m)[k] == name;
    assert m[k] == (name, AnnotationFor(annotations, name));
  }

  // ----- getMoneyRecords -----

  /** Inserts `x` after every record whose year is not greater than its own. */
  function InsertByYear(sorted: seq<MoneyRecord>, x: MoneyRecord): seq<MoneyRecord> {
    if sorted == [] then [x]
    else
      var last := sorted[|sorted| - 1];
      if StrLe(last.year, x.year) then sorted + [x]
      else InsertByYear(sorted[..|sorted| - 1], x) + [last]
  }

  /** `sortedBy { it.year }`: a stable sort on the year string's natural order. */
  function SortByYear(records: seq<MoneyRecord>): seq<MoneyRecord> {
    if records == [] then []
    else InsertByYear(SortByYear(records[..|records| - 1]), records[|records| - 1])
  }

  ghost predicate SortedByYear(s: seq<MoneyRecord>) {
    forall i, j :: 0 <= i < j < |s| ==> StrLe(s[i].year, s[j].year)
  }

  /** The records of year `y`, in order. */
  function WithYear(s: seq<MoneyRecord>, y: string): seq<MoneyRecord> {
    if s == [] then []
    else WithYear(s[..|s| - 1], y) + (if s[|s| - 1].year == y then [s[|s| - 1]] else [])
  }

  lemma {:induction false} WithYearAppend(a: seq<MoneyRecord>, b: seq<MoneyRecord>, y: string)
    ensures WithYear(a + b, y) == WithYear(a, y) + WithYear(b, y)
  {
    if b != [] {
      assert (a + b)[..|a + b| - 1] == a + b[..|b| - 1];
      WithYearAppend(a, b[..|b| - 1], y);
    } else {
      assert a + b == a;
    }
  }

  lemma {:induction false} InsertByYearPermutes(sorted: seq<MoneyRecord>, x: MoneyRecord)
    ensures multiset(InsertByYear(sorted, x)) == multiset(sorted) + multiset{x}
  {
    if sorted != [] {
      var init, last := sorted[..|sorted| - 1], sorted[|sorted| - 1];
      assert sorted == init + [last];
      if !StrLe(last.year, x.year) {
        InsertByYearPermutes(init, x);
      }
    }
  }

  lemma {:induction false} InsertByYearSorted(sorted: seq<MoneyRecord>, x: MoneyRecord)
    requires SortedByYear(sorted)
    ensures SortedByYear(InsertByYear(sorted, x))
  {
    if sorted != [] {
      var init, last := sorted[..|sorted| - 1], sorted[|sorted| - 1];
      assert sorted == init + [last];
      if StrLe(last.year, x.year) {
        var r := sorted + [x];
        forall i, j | 0 <= i < j < |r| ensures StrLe(r[i].year, r[j].year) {
          if j == |sorted| && i < |sorted| - 1 { StrLeTransitive(sorted[i].year, last.year, x.year); }
        }
      } else {
        InsertByYearSorted(init, x);
        InsertByYearPermutes(init, x);
        var ins := InsertByYear(init, x);
        StrLeTotal(last.year, x.year);
        forall i | 0 <= i < |ins| ensures StrLe(ins[i].year, last.year) {
          assert ins[i] in multiset(ins);
          if ins[i] != x {
            assert ins[i] in multiset(init);
            var k :| 0 <= k < |init| && init[k] == ins[i];
            assert sorted[k] == ins[i];
          }
        }
        var r := ins + [last];
        forall i, j | 0 <= i < j < |r| ensures StrLe(r[i].year, r[j].year) {
          if j < |ins| { assert r[i] == ins[i] && r[j] == ins[j]; }
        }
      }
    }
  }

  lemma {:induction false} InsertByYearKeepsYearOrder(sorted: seq<MoneyRecord>, x: MoneyRecord, y: string)
    ensures WithYear(InsertByYear(sorted, x), y) == WithYear(sorted, y) + WithYear([x], y)
  {
    assert [x][..0] == [];
    if sorted == [] {
      assert [x] == [] + [x];
    } else {
      var init, last := sorted[..|sorted| - 1], sorted[|sorted| - 1];
      assert sorted == init + [last];
      if StrLe(last.year, x.year) {
        WithYearAppend(sorted, [x], y);
      } else {
        InsertByYearKeepsYearOrder(init, x, y);
        var ins := InsertByYear(init, x);
        WithYearAppend(ins, [last], y);
        WithYearAppend(init, [last], y);
        assert [last][..0] == [];
        if last.year == y && x.year == y { StrLeReflexive(y); }
      }
    }
  }

  /** The sort returns the records it was given, each as often as given. */
  lemma {:induction false} SortByYearPermutes(records: seq<MoneyRecord>)
    ensures multiset(SortByYear(records)) == multiset(records)
  {
    if records != [] {
      var init := records[..|records| - 1];
      assert records == init + [records[|records| - 1]];
      SortByYearPermutes(init);
      InsertByYearPermutes(SortByYear(init), records[|records| - 1]);
    }
  }

  /** The sorted records come in non-decreasing order of their year strings. */
  lemma {:induction false} SortByYearSorted(records: seq<MoneyRecord>)
    ensures SortedByYear(SortByYear(records))
  {
    if records != [] {
      SortByYearSorted(records[..|records| - 1]);
      InsertByYearSorted(SortByYear(records[..|records| - 1]), records[|records| - 1]);
    }
  }

  /** The sort is stable: the records of any one year keep their fetched order. */
  lemma {:induction false} SortByYearStable(records: seq<MoneyRecord>, y: string)
    ensures WithYear(SortByYear(records), y) == WithYear(records, y)
  {
    if records != [] {
      var init, last := records[..|records| - 1], records[|records| - 1];
      SortByYearStable(init, y);
      InsertByYearKeepsYearOrder(SortByYear(init), last, y);
      assert WithYear([last], y) == (if last.year == y then [last] else []) by {
        assert [last][..0] == [];
      }
    }
  }

  lemma SortByYearStableForAllYears(records: seq<MoneyRecord>)
    ensures forall y :: WithYear(SortByYear(records), y) == WithYear(records, y)
  {
    forall y ensures WithYear(SortByYear(records), y) == WithYear(records, y) {
      SortByYearStable(records, y);
    }
  }

  // ----- document paths and the null-id guards -----

  /**
   * What the remote stores hold when the view-model reads them.  A path that is
   * absent stands for a read that failed or found nothing: both give an empty list.
   */
  datatype Backend = Backend(
    imageFolders: map<string, seq<string>>,
    annotationCollections: map<string, seq<AnnotatedImage>>,
    moneyRecordCollections: map<string, seq<MoneyRecord>>)

  function ListOrEmpty<T>(m: map<string, seq<T>>, path: string): seq<T> {
    if path in m then m[path] else []
  }

  /** The storage folder `movies/$movieId` that getImagesAndAnnotations lists. */
  function MovieFolder(movieId: int): string {
    "movies/" + IntToString(movieId)
  }

  /** The collection `movies/<currentMovieId.toString()>/annotations`; a null id reads `movies/null/annotations`. */
  function AnnotationsPath(currentMovieId: Option<int>): string {
    "movies/" + NullableToString(currentMovieId) + "/annotations"
  }

  /** The collection `movies/<movieId>/moneyRecords`. */
  function MoneyRecordsPath(movieId: int): string {
    "movies/" + IntToString(movieId) + "/moneyRecords"
  }

  lemma SameSuffixSamePrefix(a: string, b: string, s: string)
    requires a + s == b + s
    ensures a == b
  {
    assert a == (a + s)[..|a|];
    assert b == (b + s)[..|b|];
  }

  /**
   * Different ids name different folders and collections, and the collection read
   * for a null current id is none of them: annotations are read from the current
   * movie's collection only, whatever movie the images are listed for.
   */
  lemma PathsSeparateMovies(a: Option<int>, b: Option<int>)
    requires a != b
    ensures AnnotationsPath(a) != AnnotationsPath(b)
    ensures a.Some? && b.Some? ==> MovieFolder(a.value) != MovieFolder(b.value)
  {
    var sa, sb := NullableToString(a), NullableToString(b);
    if AnnotationsPath(a) == AnnotationsPath(b) {
      assert ("movies/" + sa) + "/annotations" == ("movies/" + sb) + "/annotations";
      SameSuffixSamePrefix("movies/" + sa, "movies/" + sb, "/annotations");
      assert sa == ("movies/" + sa)[7..] && sb == ("movies/" + sb)[7..];
      if a.Some? && b.Some? {
        IntToStringInjective(a.value, b.value);
      }
    }
    if a.Some? && b.Some? {
      assert sa == MovieFolder(a.value)[7..] && sb == MovieFolder(b.value)[7..];
      if sa == sb { IntToStringInjective(a.value, b.value); }
    }
  }

  /** A money-record write: the collection, the document id (the write time) and the record merged into it. */
  datatype RecordWrite = RecordWrite(collection: string, documentId: string, record: MoneyRecord)

  /**
   * addMoneyRecord: no write and `false` for a null id; otherwise a merge-write of
   * the record under `movies/<id>/moneyRecords/<time>`, answering whether the store
   * took it (`storeSucceeds`; a failure is caught and answered with `false`).
   */
  function AddMoneyRecord(movieId: Option<int>, record: MoneyRecord, time: int, storeSucceeds: bool)
    : (out: (bool, Option<RecordWrite>))
    ensures movieId.None? ==> out == (false, None)
    ensures movieId.Some? ==> out.1 == Some(RecordWrite(MoneyRecordsPath(movieId.value), IntToString(time), record))
    ensures out.0 <==> movieId.Some? && storeSucceeds
  {
    match movieId
    case None => (false, None)
    case Some(id) => (storeSucceeds, Some(RecordWrite(MoneyRecordsPath(id), IntToString(time), record)))
  }

  /** getCredits and getReleaseInfo: a null id fetches nothing and answers null. */
  function FetchById<R>(id: Option<int>, fetch: int -> R): (r: Option<R>)
    ensures r.None? <==> id.None?
    ensures r.Some? ==> r.value == fetch(id.value)
  {
    match id
    case None => None
    case Some(i) => Some(fetch(i))
  }

  /** searchMovies: no request (a null page) for an empty search term. */
  function SearchMovies<P>(searchTerm: string, page: int, search: (string, int) -> P): (r: Option<P>)
    ensures r.None? <==> searchTerm == ""
    ensures r.Some? ==> r.value == search(searchTerm, page)
  {
    if searchTerm == "" then None else Some(search(searchTerm, page))
  }
}
