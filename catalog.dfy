/** The resolution logic of the library (`src/lib.rs`): from the JSON
    documents the Boot.dev API returns to a course id, a lesson id, the
    sorted course list, the chapter titles and a lesson's readme.

    Every HTTP fetch is replaced by the document it would return:
    `slugDoc` answers `/v1/static/courses/slug/{slug}`, `courseDoc` answers
    `/v1/courses/{uuid}` for the uuid read from `slugDoc`, `overview` answers
    `/v1/static/courses/overview` and `lessonDoc` answers
    `/v1/static/lessons/{id}`. */
module Catalog {
  import opened Wrappers
  import opened Json
  import opened Lexicographic

  /** Rust's `u8`, the type of the chapter and lesson numbers. */
  newtype u8 = x: int | 0 <= x < 256

  /** One variant per distinct failure of the library. */
  datatype Error =
    | BadResponse                                       // body is not the shape `.json()` deserialises into
    | NoCourse                                          // "No course found with this slug"
    | NoCourseId                                        // "No ID found for this course"
    | NoChapters                                        // "No chapters found in this course"
    | ChapterOutOfRange(ch: u8, slug: string)           // "No chapter {} in course '{}'"
    | NoLessons                                         // "No lessons found in this chapter"
    | LessonOutOfRange(lesson: u8, ch: u8, slug: string) // "No lesson {} in chapter {} of course '{}'"
    | NoLessonId                                        // "No UUID found for this lesson"
    | NoCourseSlug                                      // "No slug found for a course"
    | NoCourseTitle                                     // "No title found for a course"
    | NoChapterTitle                                    // "No title found for a chapter"
    | NoLesson                                          // "No lesson found with this UUID"
    | NoLessonData                                      // "No lesson data found"
    | NoReadme                                          // "No readme found in lesson data"

  /** One `(slug, title)` pair of the course list. */
  datatype CourseEntry = CourseEntry(slug: string, title: string)

  // ---------------------------------------------------------------------
  // get_course_id
  // ---------------------------------------------------------------------

  /** `get_course_id`: the `UUID` string of the `Course` object. */
  function CourseId(slugDoc: Json): (r: Result<string, Error>)
    ensures r.Success? <==> Walk(slugDoc, [Key("Course"), Key("UUID")]).Some? &&
                            Walk(slugDoc, [Key("Course"), Key("UUID")]).value.Str?
    ensures r.Success? ==> Walk(slugDoc, [Key("Course"), Key("UUID")]) == Some(Str(r.value))
    ensures r == Failure(BadResponse) <==> !slugDoc.Obj?
    ensures r == Failure(NoCourse) <==> slugDoc.Obj? && !(Walk(slugDoc, [Key("Course")]).Some? &&
                                                       Walk(slugDoc, [Key("Course")]).value.Obj?)
    ensures r.Failure? ==> r.error in {BadResponse, NoCourse, NoCourseId}
  {
    assert [Key("Course"), Key("UUID")][1..] == [Key("UUID")];
    if !slugDoc.Obj? then Failure(BadResponse)
    else
      var course :- Context(ObjMember(slugDoc.fields, "Course"), NoCourse);
      Context(StrMember(course, "UUID"), NoCourseId)
  }

  // ---------------------------------------------------------------------
  // get_lesson_id
  // ---------------------------------------------------------------------

  /** The object entries of the course's `Chapters` array. */
  function ChapterObjects(courseDoc: Json): (r: Result<seq<Fields>, Error>)
    ensures r.Success? <==> courseDoc.Obj? && ArrMember(courseDoc.fields, "Chapters").Some?
    ensures r.Success? ==> r.value == Objects(ArrMember(courseDoc.fields, "Chapters").value)
    ensures r.Failure? ==> r.error == if courseDoc.Obj? then NoChapters else BadResponse
  {
    if !courseDoc.Obj? then Failure(BadResponse)
    else
      var chapters :- Context(ArrMember(courseDoc.fields, "Chapters"), NoChapters);
      Success(Objects(chapters))
  }

  /** The object entries of a chapter's `Lessons` array. */
  function LessonObjects(chapter: Fields): (r: Result<seq<Fields>, Error>)
    ensures r.Success? <==> ArrMember(chapter, "Lessons").Some?
    ensures r.Success? ==> r.value == Objects(ArrMember(chapter, "Lessons").value)
    ensures r.Failure? ==> r.error == NoLessons
  {
    var lessons :- Context(ArrMember(chapter, "Lessons"), NoLessons);
    Success(Objects(lessons))
  }

  /** `get_lesson_id(course_slug, ch_no, lesson_no)`. A zero chapter or
      lesson number passes the bounds check and then underflows `u8` at the
      index step, so callers must not pass one. */
  function LessonId(slug: string, ch: u8, lesson: u8, slugDoc: Json, courseDoc: Json): (r: Result<string, Error>)
    requires 1 <= ch && 1 <= lesson
    ensures CourseId(slugDoc).Failure? ==> r == CourseId(slugDoc)
    ensures r.Failure? ==> r.error in {BadResponse, NoCourse, NoCourseId, NoChapters,
                                       ChapterOutOfRange(ch, slug), NoLessons,
                                       LessonOutOfRange(lesson, ch, slug), NoLessonId}
  {
    var _ :- CourseId(slugDoc);
    var chapters :- ChapterObjects(courseDoc);
    if |chapters| < ch as int then Failure(ChapterOutOfRange(ch, slug))
    else LessonIdInChapter(slug, ch, lesson, chapters[(ch - 1) as int])
  }

  /** The second half of `get_lesson_id`, from the chapter it found: the
      `lesson`-th object lesson and its `UUID`. */
  function LessonIdInChapter(slug: string, ch: u8, lesson: u8, chapter: Fields): (r: Result<string, Error>)
    requires 1 <= lesson
    ensures r.Failure? ==> r.error in {NoLessons, LessonOutOfRange(lesson, ch, slug), NoLessonId}
  {
    var lessons :- LessonObjects(chapter);
    if |lessons| < lesson as int then Failure(LessonOutOfRange(lesson, ch, slug))
    else Context(StrMember(lessons[(lesson - 1) as int], "UUID"), NoLessonId)
  }

  /** The path `get_lesson_id` follows through the course document, with
      the 1-based numbers turned into 0-based object positions. */
  function LessonIdPath(ch: u8, lesson: u8): seq<Step>
    requires 1 <= ch && 1 <= lesson
  {
    [Key("Chapters"), NthObject(ch as int - 1), Key("Lessons"), NthObject(lesson as int - 1), Key("UUID")]
  }

  /** Index correctness, both directions: once the course id resolves,
      `get_lesson_id` succeeds exactly when the `UUID` string at chapter
      `ch` and lesson `lesson` (1-based, objects only) exists, and returns it. */
  lemma LessonIdFollowsPath(slug: string, ch: u8, lesson: u8, slugDoc: Json, courseDoc: Json)
    requires 1 <= ch && 1 <= lesson
    requires CourseId(slugDoc).Success?
    ensures var r := LessonId(slug, ch, lesson, slugDoc, courseDoc);
            var w := Walk(courseDoc, LessonIdPath(ch, lesson));
            (r.Success? <==> w.Some? && w.value.Str?) && (r.Success? ==> w == Some(Str(r.value)))
  {
    var p := [Key("Chapters"), NthObject(ch as int - 1)];
    var q := [Key("Lessons"), NthObject(lesson as int - 1), Key("UUID")];
    assert LessonIdPath(ch, lesson) == p + q;
    WalkAppend(courseDoc, p, q);
    ChapterWalk(courseDoc, ch);
    var chapters := ChapterObjects(courseDoc);
    if chapters.Success? && ch as int <= |chapters.value| {
      var chapter := chapters.value[(ch - 1) as int];
      LessonWalk(chapter, lesson);
      var lessons := LessonObjects(chapter);
      if lessons.Success? && lesson as int <= |lessons.value| {
        var item := lessons.value[(lesson - 1) as int];
        assert LessonIdInChapter(slug, ch, lesson, chapter) == Context(StrMember(item, "UUID"), NoLessonId);
      }
    }
  }

  /** The chapter part of the path: the `ch`-th object chapter, if there is one. */
  lemma ChapterWalk(courseDoc: Json, ch: u8)
    requires 1 <= ch
    ensures var chapters := ChapterObjects(courseDoc);
            Walk(courseDoc, [Key("Chapters"), NthObject(ch as int - 1)]) ==
              if chapters.Success? && ch as int <= |chapters.value|
              then Some(Obj(chapters.value[(ch - 1) as int]))
              else None
  {
    var p1 := [Key("Chapters")];
    assert p1[1..] == [];
    assert Walk(courseDoc, p1) == Member(courseDoc, "Chapters");
    assert [Key("Chapters"), NthObject(ch as int - 1)] == p1 + [NthObject(ch as int - 1)];
    WalkSnoc(courseDoc, p1, NthObject(ch as int - 1));
    if courseDoc.Obj? && ArrMember(courseDoc.fields, "Chapters").Some? {
      assert Member(courseDoc, "Chapters") == Some(Arr(ArrMember(courseDoc.fields, "Chapters").value));
    }
  }

  /** The lesson part of the path, from a chapter: the `UUID` member of the
      `lesson`-th object lesson, if there is one. */
  lemma LessonWalk(chapter: Fields, lesson: u8)
    requires 1 <= lesson
    ensures var lessons := LessonObjects(chapter);
            Walk(Obj(chapter), [Key("Lessons"), NthObject(lesson as int - 1), Key("UUID")]) ==
              if lessons.Success? && lesson as int <= |lessons.value|
              then Get(lessons.value[(lesson - 1) as int], "UUID")
              else None
  {
    var q1 := [Key("Lessons")];
    var q2 := [Key("Lessons"), NthObject(lesson as int - 1)];
    assert q1[1..] == [];
    assert Walk(Obj(chapter), q1) == Get(chapter, "Lessons");
    assert q2 == q1 + [NthObject(lesson as int - 1)];
    WalkSnoc(Obj(chapter), q1, NthObject(lesson as int - 1));
    assert [Key("Lessons"), NthObject(lesson as int - 1), Key("UUID")] == q2 + [Key("UUID")];
    WalkSnoc(Obj(chapter), q2, Key("UUID"));
    var lessons := LessonObjects(chapter);
    if lessons.Success? {
      assert Get(chapter, "Lessons") == Some(Arr(ArrMember(chapter, "Lessons").value));
      if lesson as int <= |lessons.value| {
        assert Walk(Obj(chapter), q2) == Some(Obj(lessons.value[(lesson - 1) as int]));
      }
    }
  }

  /** The failures of `get_lesson_id` at the chapter level, once the course
      id resolved: a course body that is not an object, a missing or
      ill-typed `Chapters`, or fewer object chapters than `ch` (strict
      `len < ch`, never clamped, decided before any lesson is looked at). */
  lemma LessonIdChapterErrors(slug: string, ch: u8, lesson: u8, slugDoc: Json, courseDoc: Json)
    requires 1 <= ch && 1 <= lesson
    requires CourseId(slugDoc).Success?
    ensures var r := LessonId(slug, ch, lesson, slugDoc, courseDoc);
            var w1 := Walk(courseDoc, [Key("Chapters")]);
            && (r == Failure(BadResponse) <==> !courseDoc.Obj?)
            && (r == Failure(NoChapters) <==> courseDoc.Obj? && !(w1.Some? && w1.value.Arr?))
            && (r == Failure(ChapterOutOfRange(ch, slug)) <==>
                  courseDoc.Obj? && w1.Some? && w1.value.Arr? && |Objects(w1.value.items)| < ch as int)
  {
    assert [Key("Chapters")][1..] == [];
    assert Walk(courseDoc, [Key("Chapters")]) == Member(courseDoc, "Chapters");
    var r := LessonId(slug, ch, lesson, slugDoc, courseDoc);
    match ChapterObjects(courseDoc)
    case Failure(e) =>
      assert r == Failure(e);
    case Success(chapters) =>
      assert Member(courseDoc, "Chapters") == Some(Arr(ArrMember(courseDoc.fields, "Chapters").value));
      if |chapters| >= ch as int {
        var lessons := LessonObjects(chapters[(ch - 1) as int]);
        assert r.Failure? ==> r.error in {NoLessons, LessonOutOfRange(lesson, ch, slug), NoLessonId};
      }
  }

  /** The failures of `get_lesson_id` at the lesson level, once chapter
      `ch` is found: a missing or ill-typed `Lessons`, fewer object lessons
      than `lesson` (strict `len < lesson`, never clamped), or a missing or
      ill-typed `UUID`. */
  lemma LessonIdLessonErrors(slug: string, ch: u8, lesson: u8, slugDoc: Json, courseDoc: Json, chapter: Fields)
    requires 1 <= ch && 1 <= lesson
    requires CourseId(slugDoc).Success?
    requires Walk(courseDoc, [Key("Chapters"), NthObject(ch as int - 1)]) == Some(Obj(chapter))
    ensures var r := LessonId(slug, ch, lesson, slugDoc, courseDoc);
            var w := Walk(Obj(chapter), [Key("Lessons")]);
            var q := [Key("Lessons"), NthObject(lesson as int - 1)];
            && (r == Failure(NoLessons) <==> !(w.Some? && w.value.Arr?))
            && (r == Failure(LessonOutOfRange(lesson, ch, slug)) <==>
                  w.Some? && w.value.Arr? && |Objects(w.value.items)| < lesson as int)
            && (r == Failure(NoLessonId) <==>
                  Walk(Obj(chapter), q).Some? &&
                  !(Walk(Obj(chapter), q + [Key("UUID")]).Some? && Walk(Obj(chapter), q + [Key("UUID")]).value.Str?))
  {
    ChapterWalk(courseDoc, ch);
    assert LessonId(slug, ch, lesson, slugDoc, courseDoc) == LessonIdInChapter(slug, ch, lesson, chapter);
    LessonIdInChapterErrors(slug, ch, lesson, chapter);
  }

  /** The same failures, stated for the lesson half on its own. */
  lemma LessonIdInChapterErrors(slug: string, ch: u8, lesson: u8, chapter: Fields)
    requires 1 <= lesson
    ensures var r := LessonIdInChapter(slug, ch, lesson, chapter);
            var w := Walk(Obj(chapter), [Key("Lessons")]);
            var q := [Key("Lessons"), NthObject(lesson as int - 1)];
            && (r == Failure(NoLessons) <==> !(w.Some? && w.value.Arr?))
            && (r == Failure(LessonOutOfRange(lesson, ch, slug)) <==>
                  w.Some? && w.value.Arr? && |Objects(w.value.items)| < lesson as int)
            && (r == Failure(NoLessonId) <==>
                  Walk(Obj(chapter), q).Some? &&
                  !(Walk(Obj(chapter), q + [Key("UUID")]).Some? && Walk(Obj(chapter), q + [Key("UUID")]).value.Str?))
  {
    var q1 := [Key("Lessons")];
    var q := [Key("Lessons"), NthObject(lesson as int - 1)];
    assert q1[1..] == [];
    assert Walk(Obj(chapter), q1) == Get(chapter, "Lessons");
    assert q == q1 + [NthObject(lesson as int - 1)];
    WalkSnoc(Obj(chapter), q1, NthObject(lesson as int - 1));
    WalkSnoc(Obj(chapter), q, Key("UUID"));
    match ArrMember(chapter, "Lessons")
    case None =>
      assert LessonObjects(chapter) == Failure(NoLessons);
    case Some(lessonItems) =>
      var lessons := Objects(lessonItems);
      assert LessonObjects(chapter) == Success(lessons);
      assert Get(chapter, "Lessons") == Some(Arr(lessonItems));
      if |lessons| < lesson as int {
        assert Walk(Obj(chapter), q) == None;
      } else {
        assert Walk(Obj(chapter), q) == Some(Obj(lessons[(lesson - 1) as int]));
      }
  }

  /** The same result stated on the raw arrays: the chapter is the array
      element at raw position `ci` with `ch - 1` objects before it, the
      lesson likewise; entries that are not objects take no position. */
  lemma LessonIdAtRawPositions(slug: string, ch: u8, lesson: u8, slugDoc: Json, courseDoc: Json,
                               chapterItems: seq<Json>, ci: nat, lessonItems: seq<Json>, li: nat, id: string)
    requires 1 <= ch && 1 <= lesson
    requires CourseId(slugDoc).Success? && courseDoc.Obj?
    requires Get(courseDoc.fields, "Chapters") == Some(Arr(chapterItems))
    requires ci < |chapterItems| && chapterItems[ci].Obj? && |Objects(chapterItems[..ci])| == ch as int - 1
    requires Get(chapterItems[ci].fields, "Lessons") == Some(Arr(lessonItems))
    requires li < |lessonItems| && lessonItems[li].Obj? && |Objects(lessonItems[..li])| == lesson as int - 1
    requires Get(lessonItems[li].fields, "UUID") == Some(Str(id))
    ensures LessonId(slug, ch, lesson, slugDoc, courseDoc) == Success(id)
  {
    ObjectsPosition(chapterItems, ci);
    var chapter := chapterItems[ci].fields;
    assert ChapterObjects(courseDoc) == Success(Objects(chapterItems));
    assert Objects(chapterItems)[(ch - 1) as int] == chapter;
    ObjectsPosition(lessonItems, li);
    assert LessonObjects(chapter) == Success(Objects(lessonItems));
    assert Objects(lessonItems)[(lesson - 1) as int] == lessonItems[li].fields;
  }

  // ---------------------------------------------------------------------
  // get_chapters
  // ---------------------------------------------------------------------

  /** The `Title` of each chapter, failing if any chapter lacks one. */
  function ChapterTitles(chapters: seq<Fields>): (r: Result<seq<string>, Error>)
    ensures r.Success? <==> forall k :: 0 <= k < |chapters| ==> StrMember(chapters[k], "Title").Some?
    ensures r.Success? ==> |r.value| == |chapters| &&
                           forall k :: 0 <= k < |chapters| ==> Some(r.value[k]) == StrMember(chapters[k], "Title")
    ensures r.Failure? ==> r.error == NoChapterTitle
  {
    if |chapters| == 0 then Success([])
    else
      var title :- Context(StrMember(chapters[0], "Title"), NoChapterTitle);
      var rest :- ChapterTitles(chapters[1..]);
      Success([title] + rest)
  }

  /** `get_chapters(slug)`: the title of every object chapter, in array order. */
  function Chapters(slugDoc: Json, courseDoc: Json): (r: Result<seq<string>, Error>)
    ensures CourseId(slugDoc).Failure? ==> r == Failure(CourseId(slugDoc).error)
    ensures CourseId(slugDoc).Success? ==>
              && (r == Failure(BadResponse) <==> !courseDoc.Obj?)
              && (r == Failure(NoChapters) <==> courseDoc.Obj? && ArrMember(courseDoc.fields, "Chapters").None?)
    ensures r.Failure? ==> r.error in {BadResponse, NoCourse, NoCourseId, NoChapters, NoChapterTitle}
  {
    var _ :- CourseId(slugDoc);
    var chapters :- ChapterObjects(courseDoc);
    ChapterTitles(chapters)
  }

  /** One title per object chapter, the `k`-th being the title of the
      `k`-th object chapter; and the only failure left once the
      `Chapters` array exists is a chapter without a string `Title`. */
  lemma ChaptersFollowPaths(slugDoc: Json, courseDoc: Json)
    requires CourseId(slugDoc).Success? && courseDoc.Obj?
    requires ArrMember(courseDoc.fields, "Chapters").Some?
    ensures var r := Chapters(slugDoc, courseDoc);
            var n := |Objects(ArrMember(courseDoc.fields, "Chapters").value)|;
            && (r.Success? <==> forall k :: 0 <= k < n ==> TitleAt(courseDoc, k).Some? && TitleAt(courseDoc, k).value.Str?)
            && (r.Success? ==> |r.value| == n &&
                               forall k :: 0 <= k < n ==> TitleAt(courseDoc, k) == Some(Str(r.value[k])))
            && (r.Failure? ==> r.error == NoChapterTitle)
  {
    var chapters := Objects(ArrMember(courseDoc.fields, "Chapters").value);
    assert ChapterObjects(courseDoc) == Success(chapters);
    assert Chapters(slugDoc, courseDoc) == ChapterTitles(chapters);
    forall k | 0 <= k < |chapters|
      ensures TitleAt(courseDoc, k) == Get(chapters[k], "Title")
    {
      TitleAtSteps(courseDoc, k);
    }
  }

  /** The `Title` of the `k`-th object chapter (0-based). */
  function TitleAt(courseDoc: Json, k: nat): Option<Json>
  {
    Walk(courseDoc, [Key("Chapters"), NthObject(k), Key("Title")])
  }

  lemma TitleAtSteps(courseDoc: Json, k: nat)
    requires courseDoc.Obj? && ArrMember(courseDoc.fields, "Chapters").Some?
    requires k < |Objects(ArrMember(courseDoc.fields, "Chapters").value)|
    ensures TitleAt(courseDoc, k) == Get(Objects(ArrMember(courseDoc.fields, "Chapters").value)[k], "Title")
  {
    WalkSnoc(courseDoc, [], Key("Chapters"));
    assert [] + [Key("Chapters")] == [Key("Chapters")];
    WalkSnoc(courseDoc, [Key("Chapters")], NthObject(k));
    WalkSnoc(courseDoc, [Key("Chapters"), NthObject(k)], Key("Title"));
    assert [Key("Chapters")] + [NthObject(k)] == [Key("Chapters"), NthObject(k)];
    assert [Key("Chapters"), NthObject(k)] + [Key("Title")] == [Key("Chapters"), NthObject(k), Key("Title")];
  }

  // ---------------------------------------------------------------------
  // get_course_slugs
  // ---------------------------------------------------------------------

  /** The overview deserialised as `Vec<Map<String, Value>>`: an array
      whose every element is an object, or the deserialisation fails. */
  function OverviewCourses(overview: Json): (r: Result<seq<Fields>, Error>)
    ensures r.Success? <==> overview.Arr? && forall i :: 0 <= i < |overview.items| ==> overview.items[i].Obj?
    ensures r.Success? ==> |r.value| == |overview.items| &&
                           forall i :: 0 <= i < |r.value| ==> overview.items[i] == Obj(r.value[i])
    ensures r.Failure? ==> r.error == BadResponse
  {
    if overview.Arr? && forall i :: 0 <= i < |overview.items| ==> overview.items[i].Obj? then
      Success(seq(|overview.items|, i requires 0 <= i < |overview.items| => overview.items[i].fields))
    else Failure(BadResponse)
  }

  /** The pair of one course: `Slug` is checked before `Title`. */
  function EntryOf(course: Fields): (r: Result<CourseEntry, Error>)
    ensures r == Failure(NoCourseSlug) <==> StrMember(course, "Slug").None?
    ensures r == Failure(NoCourseTitle) <==> StrMember(course, "Slug").Some? && StrMember(course, "Title").None?
    ensures r.Success? ==> Get(course, "Slug") == Some(Str(r.value.slug)) &&
                           Get(course, "Title") == Some(Str(r.value.title))
  {
    var slug :- Context(StrMember(course, "Slug"), NoCourseSlug);
    var title :- Context(StrMember(course, "Title"), NoCourseTitle);
    Success(CourseEntry(slug, title))
  }

  /** The pairs of all courses in input order, failing at the first course
      that lacks one of its fields. */
  function Entries(courses: seq<Fields>): (r: Result<seq<CourseEntry>, Error>)
    ensures r.Success? ==> |r.value| == |courses|
    ensures r.Failure? ==> r.error in {NoCourseSlug, NoCourseTitle}
    decreases |courses|
  {
    if |courses| == 0 then Success([])
    else
      var n := |courses| - 1;
      var init :- Entries(courses[..n]);
      var last :- EntryOf(courses[n]);
      Success(init + [last])
  }

  /** The list exists exactly when every course yields its pair, and then
      holds those pairs position by position. */
  lemma {:induction false} EntriesPointwise(courses: seq<Fields>)
    ensures Entries(courses).Success? <==> forall i :: 0 <= i < |courses| ==> EntryOf(courses[i]).Success?
    ensures Entries(courses).Success? ==>
              forall i :: 0 <= i < |courses| ==> Success(Entries(courses).value[i]) == EntryOf(courses[i])
    decreases |courses|
  {
    if |courses| > 0 {
      var n := |courses| - 1;
      var init := courses[..n];
      EntriesPointwise(init);
      match Entries(init)
      case Failure(_) =>
        var j :| 0 <= j < n && EntryOf(init[j]).Failure?;
        assert courses[j] == init[j];
      case Success(heads) =>
        if EntryOf(courses[n]).Success? {
          var r := heads + [EntryOf(courses[n]).value];
          assert Entries(courses) == Success(r);
          forall i | 0 <= i < |courses|
            ensures Success(r[i]) == EntryOf(courses[i])
          {
            if i < n {
              assert courses[i] == init[i];
            }
          }
          forall i | 0 <= i < |courses|
            ensures EntryOf(courses[i]).Success?
          {
            assert Success(r[i]) == EntryOf(courses[i]);
          }
        }
    }
  }

  /** The unsorted list `get_course_slugs` builds before sorting it. */
  function CourseEntries(overview: Json): (r: Result<seq<CourseEntry>, Error>)
    ensures r.Failure? ==> r.error in {BadResponse, NoCourseSlug, NoCourseTitle}
  {
    var courses :- OverviewCourses(overview);
    Entries(courses)
  }

  /** Sorted ascending by slug; equal slugs may come in either order. */
  ghost predicate SortedBySlug(s: seq<CourseEntry>)
  {
    forall i, j :: 0 <= i < j < |s| ==> StrLe(s[i].slug, s[j].slug)
  }

  /** The state of one insertion step: the prefix `s[..i+1]` is sorted
      except around position `j`, where the element being inserted sits,
      and that element is at most everything after it. */
  ghost predicate Inserting(s: seq<CourseEntry>, j: nat, i: nat)
    requires j <= i < |s|
  {
    && (forall p, q :: 0 <= p < q <= i && p != j && q != j ==> StrLe(s[p].slug, s[q].slug))
    && (forall q :: j < q <= i ==> StrLe(s[j].slug, s[q].slug))
  }

  ghost predicate SortedPrefix(s: seq<CourseEntry>, n: nat)
    requires n <= |s|
  {
    forall p, q :: 0 <= p < q < n ==> StrLe(s[p].slug, s[q].slug)
  }

  /** Swapping the inserted element with a larger left neighbour moves the
      insertion point one place left. */
  lemma InsertingSwap(s: seq<CourseEntry>, j: nat, i: nat)
    requires 0 < j <= i < |s| && Inserting(s, j, i)
    requires !StrLe(s[j - 1].slug, s[j].slug)
    ensures Inserting(s[j - 1 := s[j]][j := s[j - 1]], j - 1, i)
    ensures multiset(s[j - 1 := s[j]][j := s[j - 1]]) == multiset(s)
  {
    StrLeTotal(s[j - 1].slug, s[j].slug);
  }

  /** Once the inserted element is no smaller than its left neighbour, the
      prefix up to `i` is sorted. */
  lemma InsertingDone(s: seq<CourseEntry>, j: nat, i: nat)
    requires j <= i < |s| && Inserting(s, j, i)
    requires j == 0 || StrLe(s[j - 1].slug, s[j].slug)
    ensures SortedPrefix(s, i + 1)
  {
    forall p, q | 0 <= p < q <= i
      ensures StrLe(s[p].slug, s[q].slug)
    {
      if q == j && p < j - 1 {
        StrLeTransitive(s[p].slug, s[j - 1].slug, s[j].slug);
      }
    }
  }

  /** `results.sort_unstable_by(|a, b| a.0.cmp(&b.0))`. The library's
      algorithm is not modelled; an insertion sort stands for it, and only
      what the library promises is stated: sorted by slug, a permutation. */
  method SortBySlug(a: array<CourseEntry>)
    modifies a
    ensures SortedBySlug(a[..])
    ensures multiset(a[..]) == multiset(old(a[..]))
  {
    var i := 0;
    while i < a.Length
      invariant 0 <= i <= a.Length
      invariant SortedPrefix(a[..], i)
      invariant multiset(a[..]) == multiset(old(a[..]))
    {
      var j := i;
      while 0 < j && !StrLe(a[j - 1].slug, a[j].slug)
        invariant 0 <= j <= i
        invariant Inserting(a[..], j, i)
        invariant multiset(a[..]) == multiset(old(a[..]))
      {
        InsertingSwap(a[..], j, i);
        a[j - 1], a[j] := a[j], a[j - 1];
        j := j - 1;
      }
      InsertingDone(a[..], j, i);
      i := i + 1;
    }
  }

  /** A course that fails at position `i`, after all before it succeeded,
      fails the whole list with its own error. */
  lemma {:induction false} EntriesFirstFailure(courses: seq<Fields>, i: nat)
    requires i < |courses| && EntryOf(courses[i]).Failure?
    requires Entries(courses[..i]).Success?
    ensures Entries(courses) == Failure(EntryOf(courses[i]).error)
    decreases |courses|
  {
    var init := courses[..|courses| - 1];
    if i < |courses| - 1 {
      assert init[i] == courses[i];
      assert init[..i] == courses[..i];
      EntriesFirstFailure(init, i);
    } else {
      assert init == courses[..i];
    }
  }

  /** Extending the prefix by a course whose pair exists extends the list. */
  lemma EntriesSnoc(courses: seq<Fields>, i: nat)
    requires i < |courses| && Entries(courses[..i]).Success? && EntryOf(courses[i]).Success?
    ensures Entries(courses[..i + 1]) == Success(Entries(courses[..i]).value + [EntryOf(courses[i]).value])
  {
    assert courses[..i + 1][..i] == courses[..i];
  }

  /** `get_course_slugs`: collect the pairs in input order, failing fast,
      then sort them by slug. */
  method GetCourseSlugs(overview: Json) returns (r: Result<seq<CourseEntry>, Error>)
    ensures r.Success? <==> CourseEntries(overview).Success?
    ensures r.Failure? ==> r.error == CourseEntries(overview).error
    ensures r.Success? ==> SortedBySlug(r.value) &&
                           multiset(r.value) == multiset(CourseEntries(overview).value)
  {
    var courses :- OverviewCourses(overview);
    assert CourseEntries(overview) == Entries(courses);
    var entries :- CollectEntries(courses);
    var a := new CourseEntry[|entries|](k requires 0 <= k < |entries| => entries[k]);
    assert a[..] == entries;
    SortBySlug(a);
    r := Success(a[..]);
  }

  /** The loop of `get_course_slugs`: the pairs of the courses in order,
      returning at the first course that lacks one of its fields. */
  method CollectEntries(courses: seq<Fields>) returns (r: Result<seq<CourseEntry>, Error>)
    ensures r == Entries(courses)
  {
    var results: seq<CourseEntry> := [];
    for i := 0 to |courses|
      invariant Entries(courses[..i]) == Success(results)
    {
      var entry := EntryOf(courses[i]);
      if entry.Failure? {
        EntriesFirstFailure(courses, i);
        return Failure(entry.error);
      }
      EntriesSnoc(courses, i);
      results := results + [entry.value];
    }
    assert courses[..|courses|] == courses;
    r := Success(results);
  }

  ghost predicate DistinctSlugs(s: seq<CourseEntry>)
  {
    forall i, j :: 0 <= i < j < |s| ==> s[i].slug != s[j].slug
  }

  /** Two sorted permutations of the same pairs with distinct slugs start
      with the same pair: the one with the least slug. */
  lemma SortedHeadsEqual(s: seq<CourseEntry>, t: seq<CourseEntry>)
    requires SortedBySlug(s) && SortedBySlug(t) && multiset(s) == multiset(t)
    requires DistinctSlugs(s) && |s| > 0
    ensures |t| > 0 && t[0] == s[0]
  {
    assert s[0] in multiset(t);
    var k :| 0 <= k < |t| && t[k] == s[0];
    assert t[0] in multiset(s);
    var m :| 0 <= m < |s| && s[m] == t[0];
    if m != 0 {
      assert StrLe(s[0].slug, t[0].slug);
      assert k != 0;
      assert StrLe(t[0].slug, s[0].slug);
      StrLeAntisymmetric(s[0].slug, t[0].slug);
      assert false;
    }
  }

  /** When slugs are distinct, the sorted list is fully determined: any two
      sorted permutations of the same pairs are equal. */
  lemma {:induction false} SortedBySlugUnique(s: seq<CourseEntry>, t: seq<CourseEntry>)
    requires SortedBySlug(s) && SortedBySlug(t) && multiset(s) == multiset(t)
    requires DistinctSlugs(s)
    ensures s == t
    decreases |s|
  {
    if |s| == 0 {
      assert |multiset(t)| == 0;
    } else {
      SortedHeadsEqual(s, t);
      assert s == [s[0]] + s[1..];
      assert t == [t[0]] + t[1..];
      assert multiset(s[1..]) == multiset(t[1..]) by {
        assert multiset(s) == multiset([s[0]]) + multiset(s[1..]);
        assert multiset(t) == multiset([t[0]]) + multiset(t[1..]);
        forall x ensures multiset(s[1..])[x] == multiset(t[1..])[x] {
          assert multiset(s)[x] == multiset([s[0]])[x] + multiset(s[1..])[x];
          assert multiset(t)[x] == multiset([t[0]])[x] + multiset(t[1..])[x];
        }
      }
      SortedBySlugUnique(s[1..], t[1..]);
    }
  }

  // ---------------------------------------------------------------------
  // get_readme_by_id
  // ---------------------------------------------------------------------

  /** Keys of the variably named lesson-data member. */
  predicate IsLessonDataKey(k: string): (b: bool)
    ensures b <==> |k| >= 10 && k[..10] == "LessonData"
  {
    "LessonData" <= k
  }

  /** `get_readme_by_id`: the `Readme` string of the first `LessonData…`
      member of the `Lesson` object. */
  function ReadmeById(lessonDoc: Json): (r: Result<string, Error>)
    ensures r == Failure(BadResponse) <==> !lessonDoc.Obj?
    ensures r == Failure(NoLesson) <==> lessonDoc.Obj? && ObjMember(lessonDoc.fields, "Lesson").None?
    ensures r == Failure(NoLessonData) <==>
              lessonDoc.Obj? && ObjMember(lessonDoc.fields, "Lesson").Some? &&
              forall i :: 0 <= i < |ObjMember(lessonDoc.fields, "Lesson").value| ==>
                            !IsLessonDataKey(ObjMember(lessonDoc.fields, "Lesson").value[i].0)
    ensures r.Success? ==>
              var lesson := ObjMember(lessonDoc.fields, "Lesson").value;
              exists i :: 0 <= i < |lesson| && IsLessonDataKey(lesson[i].0) &&
                          (forall j :: 0 <= j < i ==> !IsLessonDataKey(lesson[j].0)) &&
                          Member(lesson[i].1, "Readme") == Some(Str(r.value))
  {
    if !lessonDoc.Obj? then Failure(BadResponse)
    else
      var lesson :- Context(ObjMember(lessonDoc.fields, "Lesson"), NoLesson);
      var i :- Context(FirstKey(lesson, IsLessonDataKey), NoLessonData);
      match Member(lesson[i].1, "Readme")
      case Some(Str(readme)) => Success(readme)
      case _ => Failure(NoReadme)
  }

  /** The member chosen is the first whose key starts with `LessonData`,
      whatever its suffix; the readme is read from it or the call fails with
      `NoReadme` (also when that member is not an object). */
  lemma ReadmeFromFirstLessonData(lessonDoc: Json, lesson: Fields, i: nat)
    requires lessonDoc.Obj? && Get(lessonDoc.fields, "Lesson") == Some(Obj(lesson))
    requires i < |lesson| && IsLessonDataKey(lesson[i].0)
    requires forall j :: 0 <= j < i ==> !IsLessonDataKey(lesson[j].0)
    ensures ReadmeById(lessonDoc) ==
              match Member(lesson[i].1, "Readme")
              case Some(Str(readme)) => Success(readme)
              case _ => Failure(NoReadme)
  {
    assert FirstKey(lesson, IsLessonDataKey) == Some(i);
  }

  // ---------------------------------------------------------------------
  // Worked examples
  // ---------------------------------------------------------------------

  /** An overview of two courses, `(s1, t1)` listed before `(s2, t2)`. */
  function TwoCourses(s1: string, t1: string, s2: string, t2: string): Json
  {
    Arr([Obj([("Slug", Str(s1)), ("Title", Str(t1))]), Obj([("Slug", Str(s2)), ("Title", Str(t2))])])
  }

  /** A course object holding both fields yields its pair. */
  lemma CourseFields(slug: string, title: string)
    ensures EntryOf([("Slug", Str(slug)), ("Title", Str(title))]) == Success(CourseEntry(slug, title))
  {
    var course := [("Slug", Str(slug)), ("Title", Str(title))];
    assert StrMember(course, "Slug") == Some(slug);
    assert course[0].0 != "Title";
    assert Get(course[1..], "Title") == Some(Str(title));
    assert StrMember(course, "Title") == Some(title);
  }

  /** Its pairs, in input order. */
  lemma TwoCoursesEntries(s1: string, t1: string, s2: string, t2: string)
    ensures CourseEntries(TwoCourses(s1, t1, s2, t2)) == Success([CourseEntry(s1, t1), CourseEntry(s2, t2)])
  {
    var c1 := [("Slug", Str(s1)), ("Title", Str(t1))];
    var c2 := [("Slug", Str(s2)), ("Title", Str(t2))];
    TwoCoursesParsed(s1, t1, s2, t2);
    CourseFields(s1, t1);
    CourseFields(s2, t2);
    EntriesOfTwo(c1, c2);
    assert EntryOf(c1).value == CourseEntry(s1, t1);
    assert EntryOf(c2).value == CourseEntry(s2, t2);
    assert Entries([c1, c2]) == Success([CourseEntry(s1, t1), CourseEntry(s2, t2)]);
    assert CourseEntries(TwoCourses(s1, t1, s2, t2)) == Entries([c1, c2]);
  }

  lemma TwoCoursesParsed(s1: string, t1: string, s2: string, t2: string)
    ensures OverviewCourses(TwoCourses(s1, t1, s2, t2)) ==
              Success([[("Slug", Str(s1)), ("Title", Str(t1))], [("Slug", Str(s2)), ("Title", Str(t2))]])
  {
    var c1 := [("Slug", Str(s1)), ("Title", Str(t1))];
    var c2 := [("Slug", Str(s2)), ("Title", Str(t2))];
    var items := TwoCourses(s1, t1, s2, t2).items;
    assert items == [Obj(c1), Obj(c2)];
    assert items[0].Obj? && items[1].Obj?;
    var parsed := OverviewCourses(TwoCourses(s1, t1, s2, t2));
    assert parsed.Success?;
    assert parsed.value[0] == c1 && parsed.value[1] == c2;
    assert parsed.value == [c1, c2];
  }

  /** Two courses that both yield a pair yield the two pairs, in order. */
  lemma EntriesOfTwo(c1: Fields, c2: Fields)
    requires EntryOf(c1).Success? && EntryOf(c2).Success?
    ensures Entries([c1, c2]) == Success([EntryOf(c1).value, EntryOf(c2).value])
  {
    var cs, v1, v2 := [c1, c2], EntryOf(c1).value, EntryOf(c2).value;
    assert Entries(cs[..0]) == Success([]) by {
      assert cs[..0] == [];
    }
    EntriesSnoc(cs, 0);
    assert Entries(cs[..1]) == Success([v1]) by {
      assert [] + [v1] == [v1];
    }
    EntriesSnoc(cs, 1);
    assert cs[..2] == cs;
    assert [v1] + [v2] == [v1, v2];
  }

  /** Two pairs with distinct slugs have one sorted arrangement. */
  lemma SortedPair(first: CourseEntry, second: CourseEntry, sorted: seq<CourseEntry>)
    requires second.slug != first.slug && StrLe(second.slug, first.slug)
    requires SortedBySlug(sorted) && multiset(sorted) == multiset([first, second])
    ensures sorted == [second, first]
  {
    assert multiset([second, first]) == multiset([first, second]);
    SortedBySlugUnique([second, first], sorted);
  }

  /** Two courses listed out of slug order come out swapped: with distinct
      slugs every result `get_course_slugs` may return is this one list. */
  lemma TwoCoursesSorted(s1: string, t1: string, s2: string, t2: string, sorted: seq<CourseEntry>)
    requires s1 != s2 && StrLe(s2, s1)
    requires CourseEntries(TwoCourses(s1, t1, s2, t2)).Success?
    requires SortedBySlug(sorted) && multiset(sorted) == multiset(CourseEntries(TwoCourses(s1, t1, s2, t2)).value)
    ensures sorted == [CourseEntry(s2, t2), CourseEntry(s1, t1)]
  {
    TwoCoursesEntries(s1, t1, s2, t2);
    SortedPair(CourseEntry(s1, t1), CourseEntry(s2, t2), sorted);
  }

  /** A chapter with one lesson has no lesson 2; the error names lesson 2,
      chapter 1 and the course. */
  lemma LessonOutOfRangeExample(slug: string, slugDoc: Json, id: string)
    requires CourseId(slugDoc).Success?
    ensures LessonId(slug, 1, 2, slugDoc, Obj([("Chapters", Arr([Obj([("Lessons", Arr([Obj([("UUID", Str(id))])]))])]))])) ==
              Failure(LessonOutOfRange(2, 1, slug))
  {
    var lessonItems := [Obj([("UUID", Str(id))])];
    var chapter := [("Lessons", Arr(lessonItems))];
    var chapterItems := [Obj(chapter)];
    var courseDoc := Obj([("Chapters", Arr(chapterItems))]);
    assert Objects(lessonItems) == [[("UUID", Str(id))]];
    assert Objects(chapterItems) == [chapter];
    assert ChapterObjects(courseDoc) == Success([chapter]);
    assert LessonObjects(chapter) == Success([[("UUID", Str(id))]]);
    assert LessonIdInChapter(slug, 1, 2, chapter) == Failure(LessonOutOfRange(2, 1, slug));
  }

  /** The readme is found under a `LessonData…` key whatever its suffix. */
  lemma ReadmeExample()
    ensures ReadmeById(Obj([("Lesson", Obj([("LessonDataMarkdown", Obj([("Readme", Str("# Hi"))]))]))])) ==
              Success("# Hi")
  {
    assert IsLessonDataKey("LessonDataMarkdown");
  }
}
