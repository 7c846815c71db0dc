# vedtoob, modelled in Dafny

vedtoob is a small command-line reader for Boot.dev lessons. Given a course
slug, a chapter number and a lesson number, it asks the Boot.dev API for the
course id and then for the course document. It reads the lesson id from that
document, fetches the lesson, and takes its readme. It passes the readme
through `pandoc` and prints the result. It can also list every course as
`slug = "title"` lines sorted by slug, and the chapters of one course as
numbered lines.

This project models the part of the library (`src/lib.rs`) that resolves
those answers from the JSON documents the API returns. It also models the
text the command-line front end (`src/main.rs`) builds from them. Every HTTP
response is an input value of an already-parsed JSON datatype, so each
library function becomes a total function from documents to a `Result`.

The files:

- `wrappers.dfy` (module `Wrappers`): `Option`, `Result`, and `Context`,
  which stands for anyhow's `.context()` on an `Option`.
- `json.dfy` (module `Json`): the JSON value and the `serde_json` accessors
  used (`get`, `as_str`, `as_array`, `as_object`, `filter_map(as_object)`).
  It also holds `Walk`, the reference path walk that the resolution
  functions are proved against. In a `Walk` path, `NthObject(n)` counts only
  the objects of an array.
- `lexicographic.dfy` (module `Lexicographic`): `StrLe`, the order
  `String::cmp` uses, with its order laws.
- `catalog.dfy` (module `Catalog`): `get_course_id`, `get_lesson_id`,
  `get_chapters`, `get_course_slugs` and `get_readme_by_id`.
  - `get_course_slugs` is imperative: a loop pushes pairs, then an in-place
    sort runs on an array.
- `cli.dfy` (module `Cli`): the `list-courses` and `list-chapters` output
  strings, and the stage order of `show`.

The library's failures are one `Error` variant each. A variant carries the
numbers and the slug that the message text names.

Two behaviours of the source are easy to miss:

- Chapter and lesson positions count object entries only.
  `src/lib.rs:71` and `src/lib.rs:85` drop every other entry before indexing.
- The readme is read from the first key that starts with `LessonData`, in
  map iteration order (`src/lib.rs:116-120`).

## Model

| member | source | states |
|---|---|---|
| Json.Get | src/lib.rs:153-160 | `Map::get`: `None` exactly when no member has the key; otherwise the value of the first member with that key |
| Json.FirstKey | src/lib.rs:116-120 | `iter().find`: `None` exactly when no key qualifies; otherwise the index of a qualifying key with none qualifying before it |
| Json.StrMember | src/lib.rs:157-160 | `get(..).and_then(as_str)` is `Some` exactly when the member exists and is a string, and then it is that string |
| Json.ArrMember | src/lib.rs:66-69 | `get(..).and_then(as_array)` is `Some` exactly when the member exists and is an array, and then it is that array |
| Json.ObjMember | src/lib.rs:111-114 | `get(..).and_then(as_object)` is `Some` exactly when the member exists and is an object, and then it is that object |
| Json.Member | src/lib.rs:122-124 | `Value::get`: on an object, the member bound to the key (as `Get`); on any other value, nothing |
| Json.Objects | src/lib.rs:19-21 | `filter_map(as_object).collect()`: never longer than the array, and exactly as long when every entry is an object; order and positions are stated by `ObjectsAppend`, `ObjectsPosition` and `ObjectsOrigin` |
| Json.ObjectsAppend | src/lib.rs:70-72 | keeping only the objects distributes over concatenation, so array order is kept |
| Json.ObjectsPosition | src/lib.rs:71 | an object at raw position `i` is found at filtered position "number of objects before `i`" |
| Json.ObjectsOrigin | src/lib.rs:85 | every filtered object comes from a raw position with exactly `k` objects before it |
| Json.WalkAppend | src/lib.rs:66-101 | walking a concatenated path is walking the first part, then the rest from where it ended |
| Wrappers.Context | src/lib.rs:153-160 | anyhow's `.context()` on an `Option`: success exactly when the value is present, carrying it; otherwise the given error |
| Lexicographic.StrLeTotal | src/lib.rs:57 | any two slugs are comparable |
| Lexicographic.StrLeTransitive | src/lib.rs:57 | the slug order is transitive |
| Lexicographic.StrLeAntisymmetric | src/lib.rs:57 | slugs each at most the other are equal |
| Catalog.CourseId | src/lib.rs:150-162 | succeeds exactly when `Course.UUID` is a string, and returns it; `BadResponse` exactly when the body is not an object; `NoCourse` exactly when `Course` is missing or not an object; otherwise `NoCourseId` |
| Catalog.LessonId | src/lib.rs:61-104 | a failing course-id lookup is passed on unchanged; every failure is one of the eight lookup errors |
| Catalog.LessonIdFollowsPath | src/lib.rs:66-103 | once the course id resolves, for any course document: succeeds exactly when the walk `Chapters`, object `ch-1`, `Lessons`, object `lesson-1`, `UUID` reaches a string, and returns that string |
| Catalog.LessonIdChapterErrors | src/lib.rs:66-78 | `BadResponse` exactly when the course body is not an object; `NoChapters` exactly when `Chapters` is missing or not an array; `ChapterOutOfRange(ch, slug)` exactly when there are fewer than `ch` object chapters (strict, no clamping, before any lesson is read) |
| Catalog.LessonIdLessonErrors | src/lib.rs:80-101 | once chapter `ch` is found: `NoLessons` exactly when its `Lessons` is missing or not an array; `LessonOutOfRange(lesson, ch, slug)` exactly when it has fewer than `lesson` object lessons; `NoLessonId` exactly when that lesson exists but has no string `UUID` |
| Catalog.LessonIdInChapterErrors | src/lib.rs:80-101 | the same three iffs for the lesson half on its own, stated on the chapter object |
| Catalog.LessonIdInChapter | src/lib.rs:80-103 | the lesson half fails only with `NoLessons`, `LessonOutOfRange` or `NoLessonId` |
| Catalog.LessonIdAtRawPositions | src/lib.rs:66-103 | a chapter at raw position `ci` with `ch-1` objects before it, and a lesson at raw position `li` with `lesson-1` objects before it, whose `UUID` is `id`, give `Success(id)`: entries that are not objects take no position |
| Catalog.ChapterWalk | src/lib.rs:66-78 | the walk to object chapter `ch-1` finds exactly the chapter `get_lesson_id` indexes, and nothing when there are fewer than `ch` |
| Catalog.LessonWalk | src/lib.rs:80-101 | the walk from a chapter to the `UUID` of object lesson `lesson-1` finds exactly the member `get_lesson_id` reads, and nothing when there are fewer than `lesson` |
| Catalog.ChapterObjects | src/lib.rs:66-72 | succeeds exactly when the body is an object with an array `Chapters`, giving its objects; otherwise `BadResponse` or `NoChapters` |
| Catalog.LessonObjects | src/lib.rs:80-86 | succeeds exactly when the chapter has an array `Lessons`, giving its objects; otherwise `NoLessons` |
| Catalog.ChapterTitles | src/lib.rs:23-32 | succeeds exactly when every chapter has a string `Title`; then one title per chapter, position by position; otherwise `NoChapterTitle` |
| Catalog.Chapters | src/lib.rs:10-35 | a failing course-id lookup is passed on unchanged; once it resolves, `BadResponse` exactly when the course body is not an object and `NoChapters` exactly when `Chapters` is missing or not an array; every failure is one of five errors |
| Catalog.ChaptersFollowPaths | src/lib.rs:15-32 | once `Chapters` exists: succeeds exactly when every object chapter's `Title` is a string; then exactly one title per object chapter, the `k`-th being the title of the `k`-th object chapter; otherwise `NoChapterTitle` |
| Catalog.OverviewCourses | src/lib.rs:38-39 | the overview deserialises exactly when it is an array of objects, and then gives those objects in order; otherwise `BadResponse` |
| Catalog.EntryOf | src/lib.rs:44-54 | `NoCourseSlug` exactly when there is no string `Slug`; `NoCourseTitle` exactly when `Slug` is there but there is no string `Title` (`Slug` is checked first); on success the pair holds those two strings |
| Catalog.Entries | src/lib.rs:43-55 | on success one pair per course; every failure is `NoCourseSlug` or `NoCourseTitle` |
| Catalog.EntriesPointwise | src/lib.rs:43-55 | the pairs exist exactly when every course yields its pair, and then pair `i` is course `i`'s pair (input order) |
| Catalog.EntriesFirstFailure | src/lib.rs:43-52 | when the courses before `i` all yield pairs and course `i` does not, the whole list fails with course `i`'s error: fail fast in input order |
| Catalog.EntriesSnoc | src/lib.rs:54 | extending the prefix by a course whose pair exists pushes that pair at the end |
| Catalog.CourseEntries | src/lib.rs:37-55 | every failure of the collection phase is `BadResponse`, `NoCourseSlug` or `NoCourseTitle` |
| Catalog.CollectEntries | src/lib.rs:41-55 | the push loop returns exactly the input-order pairs, or the error of the first course lacking a field |
| Catalog.SortBySlug | src/lib.rs:57 | afterwards the array is sorted ascending by slug and is a permutation of its old contents |
| Catalog.GetCourseSlugs | src/lib.rs:37-59 | succeeds exactly when every course yields its pair, with the same error otherwise; on success the result is sorted by slug and is a permutation of the input-order pairs |
| Catalog.SortedBySlugUnique | src/lib.rs:57 | with distinct slugs there is only one sorted permutation, so the unstable sort's output is determined |
| Catalog.SortedHeadsEqual | src/lib.rs:57 | two sorted permutations of pairs with distinct slugs start with the same pair |
| Catalog.ReadmeById | src/lib.rs:106-128 | `BadResponse` exactly when the body is not an object; `NoLesson` exactly when `Lesson` is missing or not an object; `NoLessonData` exactly when no key of `Lesson` starts with `LessonData`; on success the readme is the `Readme` string of the first such member |
| Catalog.IsLessonDataKey | src/lib.rs:118 | `starts_with("LessonData")`: the key is at least ten characters long and its first ten are `LessonData` |
| Catalog.ReadmeFromFirstLessonData | src/lib.rs:116-125 | the member used is the first whose key starts with `LessonData`, whatever its suffix; its `Readme` string is returned, and anything else is `NoReadme` |
| Catalog.CourseFields | src/lib.rs:44-54 | a course object with both fields yields its pair |
| Catalog.EntriesOfTwo | src/lib.rs:43-55 | two courses that both yield pairs give the two pairs, in input order |
| Catalog.TwoCoursesEntries | src/lib.rs:37-55 | a two-course overview collects its pairs in input order |
| Catalog.TwoCoursesParsed | src/lib.rs:38-39 | a two-course overview deserialises into its two objects |
| Catalog.SortedPair | src/lib.rs:57 | two pairs with distinct slugs have one sorted arrangement |
| Catalog.TwoCoursesSorted | src/lib.rs:37-59 | two courses listed out of slug order come out swapped |
| Catalog.LessonOutOfRangeExample | src/lib.rs:88-95 | a chapter with one lesson has no lesson 2: `LessonOutOfRange(2, 1, slug)` |
| Catalog.ReadmeExample | src/lib.rs:106-128 | a `LessonDataMarkdown` member with `Readme` "# Hi" gives "# Hi" |
| Cli.Decimal | src/main.rs:83 | the numeral is a non-empty string of digits with no leading zero |
| Cli.DecimalRoundTrip | src/main.rs:83 | reading the numeral back gives the number, so line numbers are unambiguous |
| Cli.OccurrencesAppend | src/main.rs:68-71 | newline counts add up over concatenation |
| Cli.CourseListingAppend | src/main.rs:68-71 | the listing of a concatenation is the concatenation of the listings |
| Cli.CourseListingAt | src/main.rs:68-71 | pair `i` is printed as `slug = "title"` plus a newline, after the lines of the pairs before it and before those after it |
| Cli.CourseLineParts | src/main.rs:70 | `CourseLine`, the `format!` of one pair, splits back into the slug, ` = "`, the title, and `"` with a line break |
| Cli.CourseListingEmpty | src/main.rs:68-71 | `CourseListing`, the collected lines, is empty exactly when there are no pairs |
| Cli.CourseListingLines | src/main.rs:68-71 | with no line breaks inside slugs and titles, the listing has one newline per pair |
| Cli.NumberedLineParts | src/main.rs:83 | `NumberedLine`, the `format!` of one title, splits back into a numeral that reads back as the line number, `: `, the title, and a line break |
| Cli.NumberedFromEmpty | src/main.rs:80-84 | `NumberedFrom`, the numbered lines from a given number, is empty exactly when there are no titles |
| Cli.NumberedListing | src/main.rs:80-84 | `enumerate` numbering starts at 1: no titles give the empty string, otherwise the listing starts with the line of the first title numbered 1 |
| Cli.NumberedFromAppend | src/main.rs:80-84 | the numbered listing of a concatenation continues the numbering across the join |
| Cli.NumberedListingAt | src/main.rs:80-84 | title `i` is printed as `i+1`, ": ", the title and a newline, after the lines of the titles before it, and the numbering continues after it |
| Cli.NumberedFromLines | src/main.rs:93-97 | the numbered listing (the same builder for chapters and lessons) has one newline per title when no title holds a line break |
| Cli.Show | src/main.rs:57-59 | lesson id, then readme, then prettify: a failure is labelled with the stage that failed and carries that stage's error; a later stage runs only after the earlier ones succeed; on success the text is prettify's output |
| Cli.ListChapters | src/main.rs:79-84 | succeeds exactly when `get_chapters` does, labels its failure `ChaptersFailed`, and prints the numbered titles |
| Cli.ListCourses | src/main.rs:67-71 | succeeds exactly when the pairs can be collected, labels the failure `CourseSlugsFailed`, and prints the lines of a sorted permutation of the pairs |

## Left out

- HTTP fetches and the URL formatting: every response is an input value, and transport errors are not modelled.
- JSON text parsing: the model starts from a parsed value. A body whose shape the typed deserialisation refuses becomes `BadResponse`.
- Duplicate keys in one JSON object: `serde_json` keeps only the last value for a repeated key, so a parsed map has distinct keys. The model does not require distinct keys and reads the first member with a key; the two agree whenever keys are distinct, which is every map the parser produces.
- Map iteration order: it depends on a `serde_json` feature switch that is not part of this model. The model takes the order of the member sequence as given.
- `prettify`: it writes a temporary file and runs the external `pandoc` program. `Cli.Show` takes it as a function parameter.
- Argument parsing and the terminal printer: each command's result is the string it would hand to the printer.
- The `list-lessons` command: `get_lessons` is not part of this model, because it is not defined in `src/lib.rs`. Its line format is `NumberedListing`, the one shared with `list-chapters`.
- The exact `anyhow` message text and the context chain: errors are enum variants that carry the numbers and the slug.
- Catalog.LessonId: a chapter or lesson number of 0 is a precondition. In the source it passes the bounds check and then underflows `u8` at the indexing step.
- Catalog.SortBySlug: an insertion sort stands for the library's unstable sort. Only its promise is modelled (sorted by slug, a permutation), not its algorithm or which of two equal slugs comes first.
- Cli.CourseListingLines: the newline count is stated only for slugs and titles without line breaks.
- Cli.NumberedFromLines: the newline count is stated only for titles without line breaks.
- Numbers in JSON are unbounded integers; no floating point is modelled, and no numeric field is read by the core.
