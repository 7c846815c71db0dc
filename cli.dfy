/** The command-line front end (`src/main.rs`): the text each listing
    command prints, and the order in which `show` runs its stages. Argument
    parsing and the syntax-highlighting printer are not modelled; each
    command yields the string it would hand to the printer. */
module Cli {
  import opened Wrappers
  import opened Json
  import opened Catalog

  // ---------------------------------------------------------------------
  // Decimal numerals, as `format!("{}", n)` writes a `usize`
  // ---------------------------------------------------------------------

  function DigitChar(d: nat): (c: char)
    requires d < 10
    ensures '0' <= c <= '9' && c as int - '0' as int == d
  {
    ('0' as int + d) as char
  }

  /** The decimal numeral of `n`, without leading zeros. */
  function Decimal(n: nat): (r: string)
    ensures 1 <= |r|
    ensures forall i :: 0 <= i < |r| ==> '0' <= r[i] <= '9'
    ensures r[0] == '0' ==> n == 0
  {
    if n < 10 then [DigitChar(n)] else Decimal(n / 10) + [DigitChar(n % 10)]
  }

  /** The value a string of decimal digits denotes. */
  function DecimalValue(s: string): nat
    requires forall i :: 0 <= i < |s| ==> '0' <= s[i] <= '9'
  {
    if |s| == 0 then 0 else DecimalValue(s[..|s| - 1]) * 10 + (s[|s| - 1] as int - '0' as int)
  }

  /** The numeral read back gives the number: line numbers are unambiguous. */
  lemma {:induction false} DecimalRoundTrip(n: nat)
    ensures DecimalValue(Decimal(n)) == n
  {
    if n >= 10 {
      DecimalRoundTrip(n / 10);
      var r := Decimal(n);
      assert r[..|r| - 1] == Decimal(n / 10);
    }
  }

  // ---------------------------------------------------------------------
  // Counting newlines
  // ---------------------------------------------------------------------

  function Occurrences(c: char, s: string): nat
  {
    if |s| == 0 then 0 else (if s[0] == c then 1 else 0) + Occurrences(c, s[1..])
  }

  lemma {:induction false} OccurrencesAppend(c: char, a: string, b: string)
    ensures Occurrences(c, a + b) == Occurrences(c, a) + Occurrences(c, b)
  {
    if |a| > 0 {
      assert (a + b)[1..] == a[1..] + b;
      OccurrencesAppend(c, a[1..], b);
    } else {
      assert a + b == b;
    }
  }

  lemma {:induction false} OccurrencesAbsent(c: char, s: string)
    requires c !in s
    ensures Occurrences(c, s) == 0
  {
    if |s| > 0 {
      OccurrencesAbsent(c, s[1..]);
    }
  }

  // ---------------------------------------------------------------------
  // list-courses: `slug = "title"` lines
  // ---------------------------------------------------------------------

  /** `format!("{} = \"{}\"\n", slug, title)`: the slug, ` = `, the title
      in double quotes, and a line break. */
  function CourseLine(e: CourseEntry): string
  {
    e.slug + " = \"" + e.title + "\"\n"
  }

  /** The line splits back into its parts: the slug, ` = "`, the title, and
      a closing quote with the line break. */
  lemma CourseLineParts(e: CourseEntry)
    ensures var r := CourseLine(e);
            && |r| == |e.slug| + |e.title| + 6
            && r[..|e.slug|] == e.slug
            && r[|e.slug|..|e.slug| + 4] == " = \""
            && r[|e.slug| + 4..|r| - 2] == e.title
            && r[|r| - 2..] == "\"\n"
  {
  }

  /** The lines of all pairs, collected into one string. */
  function CourseListing(entries: seq<CourseEntry>): string
  {
    if |entries| == 0 then "" else CourseLine(entries[0]) + CourseListing(entries[1..])
  }

  /** The listing of a concatenation is the concatenation of the listings:
      the lines keep the order of the pairs. */
  lemma {:induction false} CourseListingAppend(a: seq<CourseEntry>, b: seq<CourseEntry>)
    ensures CourseListing(a + b) == CourseListing(a) + CourseListing(b)
  {
    if |a| == 0 {
      assert a + b == b;
    } else {
      assert (a + b)[1..] == a[1..] + b;
      CourseListingAppend(a[1..], b);
    }
  }

  /** Pair `i` is printed as the line after the lines of the pairs before it. */
  lemma {:induction false} CourseListingAt(entries: seq<CourseEntry>, i: nat)
    requires i < |entries|
    ensures CourseListing(entries) ==
              CourseListing(entries[..i]) + CourseLine(entries[i]) + CourseListing(entries[i + 1..])
  {
    assert entries == entries[..i] + ([entries[i]] + entries[i + 1..]);
    CourseListingAppend(entries[..i], [entries[i]] + entries[i + 1..]);
    assert ([entries[i]] + entries[i + 1..])[1..] == entries[i + 1..];
  }

  /** No pairs print nothing, and any pair prints something. */
  lemma CourseListingEmpty(entries: seq<CourseEntry>)
    ensures CourseListing(entries) == "" <==> |entries| == 0
  {
    if |entries| > 0 {
      assert |CourseLine(entries[0])| > 0;
    }
  }

  /** When no slug or title holds a line break, there is exactly one line
      per pair. */
  lemma {:induction false} CourseListingLines(entries: seq<CourseEntry>)
    requires forall i :: 0 <= i < |entries| ==> '\n' !in entries[i].slug && '\n' !in entries[i].title
    ensures Occurrences('\n', CourseListing(entries)) == |entries|
  {
    if |entries| > 0 {
      var e := entries[0];
      CourseListingLines(entries[1..]);
      OccurrencesAbsent('\n', e.slug);
      OccurrencesAbsent('\n', e.title);
      OccurrencesAbsent('\n', " = \"");
      OccurrencesAppend('\n', e.slug, " = \"");
      OccurrencesAppend('\n', e.slug + " = \"", e.title);
      OccurrencesAppend('\n', e.slug + " = \"" + e.title, "\"\n");
      OccurrencesAppend('\n', CourseLine(e), CourseListing(entries[1..]));
      assert Occurrences('\n', "\"\n") == 1;
    }
  }

  // ---------------------------------------------------------------------
  // list-chapters and list-lessons: `k: title` lines numbered from 1
  // ---------------------------------------------------------------------

  /** `format!("{}: {}\n", i + 1, title)` with `k == i + 1`: a numeral that
      reads back as `k`, `: `, the title, and a line break. */
  function NumberedLine(k: nat, title: string): string
  {
    Decimal(k) + ": " + title + "\n"
  }

  /** The line splits back into its parts: a numeral that reads back as
      `k`, `: `, the title, and the line break. */
  lemma NumberedLineParts(k: nat, title: string)
    ensures var r := NumberedLine(k, title);
            && |r| == |Decimal(k)| + |title| + 3
            && r[..|Decimal(k)|] == Decimal(k) && DecimalValue(r[..|Decimal(k)|]) == k
            && r[|Decimal(k)|..|Decimal(k)| + 2] == ": "
            && r[|Decimal(k)| + 2..|r| - 1] == title
            && r[|r| - 1] == '\n'
  {
    DecimalRoundTrip(k);
  }

  /** The lines of `titles`, the first numbered `k`. */
  function NumberedFrom(titles: seq<string>, k: nat): string
  {
    if |titles| == 0 then "" else NumberedLine(k, titles[0]) + NumberedFrom(titles[1..], k + 1)
  }

  /** `titles.iter().enumerate().map(..).collect()`: numbering from 1. */
  function NumberedListing(titles: seq<string>): (r: string)
    ensures |titles| == 0 ==> r == ""
    ensures |titles| > 0 ==> |NumberedLine(1, titles[0])| <= |r| &&
                             r[..|NumberedLine(1, titles[0])|] == NumberedLine(1, titles[0])
  {
    NumberedFrom(titles, 1)
  }

  lemma {:induction false} NumberedFromAppend(a: seq<string>, b: seq<string>, k: nat)
    ensures NumberedFrom(a + b, k) == NumberedFrom(a, k) + NumberedFrom(b, k + |a|)
  {
    if |a| == 0 {
      assert a + b == b;
    } else {
      var line := NumberedLine(k, a[0]);
      assert (a + b)[1..] == a[1..] + b;
      NumberedFromAppend(a[1..], b, k + 1);
      calc {
        NumberedFrom(a + b, k);
        line + NumberedFrom(a[1..] + b, k + 1);
        line + (NumberedFrom(a[1..], k + 1) + NumberedFrom(b, k + |a|));
        (line + NumberedFrom(a[1..], k + 1)) + NumberedFrom(b, k + |a|);
      }
    }
  }

  /** Title `i` is printed, numbered `i + 1`, after the lines of the titles
      before it, and the titles after it continue the numbering. */
  lemma {:induction false} NumberedListingAt(titles: seq<string>, i: nat)
    requires i < |titles|
    ensures NumberedListing(titles) ==
              NumberedListing(titles[..i]) + NumberedLine(i + 1, titles[i]) + NumberedFrom(titles[i + 1..], i + 2)
  {
    assert titles == titles[..i] + ([titles[i]] + titles[i + 1..]);
    NumberedFromAppend(titles[..i], [titles[i]] + titles[i + 1..], 1);
    assert ([titles[i]] + titles[i + 1..])[1..] == titles[i + 1..];
  }

  /** No titles print nothing, and any title prints something. */
  lemma NumberedFromEmpty(titles: seq<string>, k: nat)
    ensures NumberedFrom(titles, k) == "" <==> |titles| == 0
  {
    if |titles| > 0 {
      assert |NumberedLine(k, titles[0])| > 0;
    }
  }

  /** When no title holds a line break, there is exactly one line per title. */
  lemma {:induction false} NumberedFromLines(titles: seq<string>, k: nat)
    requires forall i :: 0 <= i < |titles| ==> '\n' !in titles[i]
    ensures Occurrences('\n', NumberedFrom(titles, k)) == |titles|
  {
    if |titles| > 0 {
      var t := titles[0];
      NumberedFromLines(titles[1..], k + 1);
      OccurrencesAbsent('\n', Decimal(k));
      OccurrencesAbsent('\n', ": ");
      OccurrencesAbsent('\n', t);
      OccurrencesAppend('\n', Decimal(k), ": ");
      OccurrencesAppend('\n', Decimal(k) + ": ", t);
      OccurrencesAppend('\n', Decimal(k) + ": " + t, "\n");
      OccurrencesAppend('\n', NumberedLine(k, t), NumberedFrom(titles[1..], k + 1));
      assert Occurrences('\n', "\n") == 1;
    }
  }

  // ---------------------------------------------------------------------
  // The commands
  // ---------------------------------------------------------------------

  /** A failed command: the library's error under the label of the stage
      that failed. */
  datatype CommandError =
    | LessonIdFailed(cause: Error)      // "Failed to get lesson ID"
    | ReadmeFailed(cause: Error)        // "Failed to get lesson readme"
    | PrettifyFailed(reason: string)    // "Failed to prettify readme"
    | CourseSlugsFailed(cause: Error)   // "Failed to get course slugs"
    | ChaptersFailed(cause: Error)      // "Failed to get chapters"

  /** `show`: lesson id, then readme, then prettify, stopping at the first
      failure. `lessonDocFor(id)` is the response for lesson `id` and
      `prettify` stands for the external converter. */
  function Show(slug: string, ch: u8, lesson: u8, slugDoc: Json, courseDoc: Json,
                lessonDocFor: string -> Json, prettify: string -> Result<string, string>): (r: Result<string, CommandError>)
    requires 1 <= ch && 1 <= lesson
    ensures var id := LessonId(slug, ch, lesson, slugDoc, courseDoc);
            && (r.Failure? && r.error.LessonIdFailed? <==> id.Failure?)
            && (id.Failure? ==> r.error.cause == id.error)
            && (r.Failure? && r.error.ReadmeFailed? ==>
                  id.Success? && ReadmeById(lessonDocFor(id.value)) == Failure(r.error.cause))
            && (r.Failure? && r.error.PrettifyFailed? ==>
                  id.Success? && ReadmeById(lessonDocFor(id.value)).Success? &&
                  prettify(ReadmeById(lessonDocFor(id.value)).value) == Failure(r.error.reason))
            && (r.Success? ==>
                  id.Success? && ReadmeById(lessonDocFor(id.value)).Success? &&
                  prettify(ReadmeById(lessonDocFor(id.value)).value) == Success(r.value))
    ensures r.Failure? ==> r.error.LessonIdFailed? || r.error.ReadmeFailed? || r.error.PrettifyFailed?
  {
    match LessonId(slug, ch, lesson, slugDoc, courseDoc)
    case Failure(e) => Failure(LessonIdFailed(e))
    case Success(id) =>
      match ReadmeById(lessonDocFor(id))
      case Failure(e) => Failure(ReadmeFailed(e))
      case Success(readme) =>
        match prettify(readme)
        case Failure(reason) => Failure(PrettifyFailed(reason))
        case Success(text) => Success(text)
  }

  /** `list-chapters`: the numbered chapter titles. */
  function ListChapters(slugDoc: Json, courseDoc: Json): (r: Result<string, CommandError>)
    ensures r.Success? <==> Chapters(slugDoc, courseDoc).Success?
    ensures r.Failure? ==> r.error == ChaptersFailed(Chapters(slugDoc, courseDoc).error)
    ensures r.Success? ==> r.value == NumberedListing(Chapters(slugDoc, courseDoc).value)
  {
    match Chapters(slugDoc, courseDoc)
    case Failure(e) => Failure(ChaptersFailed(e))
    case Success(titles) => Success(NumberedListing(titles))
  }

  /** `list-courses`: the course pairs, sorted by slug, one line each. */
  method ListCourses(overview: Json) returns (r: Result<string, CommandError>)
    ensures r.Success? <==> CourseEntries(overview).Success?
    ensures r.Failure? ==> r.error == CourseSlugsFailed(CourseEntries(overview).error)
    ensures r.Success? ==>
              exists sorted :: SortedBySlug(sorted) &&
                               multiset(sorted) == multiset(CourseEntries(overview).value) &&
                               r.value == CourseListing(sorted)
  {
    var courses := GetCourseSlugs(overview);
    if courses.Failure? {
      return Failure(CourseSlugsFailed(courses.error));
    }
    r := Success(CourseListing(courses.value));
  }
}
