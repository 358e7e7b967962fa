# CourseKeeper in Dafny

CourseKeeper is a demo web application. A user uploads an old syllabus and then
browses a timeline of how the field, by default Computer Vision, has changed
year by year since the year they studied it. Its logic lives in three places:

- a page with three stages (upload, timeline, detail), driven by five state
  fields and four handlers;
- a hand-authored table of yearly "patch notes", completed by a fill loop for
  the years nobody wrote up;
- a seed script that resets and rebuilds a demo user's catalogue in the
  database.

This project models that logic and proves its properties:

- `wrappers.dfy` holds `Option`, the stand-in for `null` and `undefined`.
- `decimal.dfy` models decimal text: what `${year}` prints and what `parseInt`
  reads back.
- `year_table.dfy` models the year table of `mockData.ts`. The table is a class
  whose `FillMissingYears` loop is proved to produce `Completed(table)`. Lemmas
  give the keys and the shape of every entry.
- `timeline.dfy` models the timeline: the year list, the event filter, the
  left/right alternation, the dot style and the "Must Learn" badge.
- `year_detail.dfy` models the detail view: change icons, tabs and count
  badges, the learning path, the recommended topic, and the open-tab state.
- `upload_section.dfy` models the upload form as a class. It covers the five
  fields, the handlers, the submit guard, the disabled condition, the year and
  subject options, and the presets.
- `page.dfy` models the page. The state record `PageState` is paired with a
  class `CourseKeeper` whose handlers are proved to perform `Step`. An
  `Enabled` relation says which handler the rendered page offers. By induction
  over every offered trace, every reachable state keeps the invariant, so the
  detail view always finds its data.
- `seed_fixtures.dfy` and `seed.dfy` model the seed script over an in-memory
  store:
  - the six tables are sequences, and one counter hands out ids;
  - each `deleteMany`/`create` of the script is a step of a method;
  - `Seed` states what one run leaves behind;
  - `SeedTwice` states that a second run reuses the user and subject of the first: two runs add at most one User row and one Subject row, while each run adds 15 canon rows, 30 over the two runs.

Three behaviours of the code are easy to miss, and the model keeps them:

- **Back to upload.** `handleBackToUpload`
  (web/src/app/coursekeeper/page.tsx:35-37) only sets the stage. Baseline,
  subject, email and the selected year all survive, and a stale selected year
  can sit in the timeline stage next to a new baseline
  (`StaleSelectionSurvivesNewUpload`).
- **Where "New Subject" is offered.** The button shows in both the timeline
  and the detail stage (web/src/app/coursekeeper/page.tsx:53,
  `NewSubjectOffered`).
- **Changes per seeded year.** 2012 has four changes and one paper; every
  other year has three changes and two papers (`FixtureYearsShape`,
  `FixtureTotals`).

## Model

| member | source | states |
|---|---|---|
| Decimal.NatToString | web/src/app/coursekeeper/data/mockData.ts:203 | a year prints as a non-empty run of decimal digits without a leading zero |
| Decimal.ParseInt | web/src/app/coursekeeper/components/UploadSection.tsx:33 | `parseInt` gives NaN (None) exactly when the text is empty or does not start with a digit |
| Decimal.ParseIntOfNatToString | web/src/app/coursekeeper/components/UploadSection.tsx:95-96 | parsing the printed text of a number gives the number back |
| Decimal.NatToStringInjective | web/src/app/coursekeeper/data/mockData.ts:203-206 | different numbers print differently |
| YearTable.HandAuthoredKeys | web/src/app/coursekeeper/data/mockData.ts:29-189 | the literal table has exactly the keys 2012, 2014, 2015, 2017, 2020, 2022, 2023, 2024, all inside 2009..2024 |
| YearTable.Completed | web/src/app/coursekeeper/data/mockData.ts:192-210 | after filling, every year of 2009..2024 is a key; existing entries are unchanged; no key outside the old keys and 2009..2024 is added; every new entry is the filler for its year |
| YearTable.CompletedCharacterized | web/src/app/coursekeeper/data/mockData.ts:192-210 | any table with those three properties equals the completed table, so the fill is fully determined by them |
| YearTable.MockTable.constructor | web/src/app/coursekeeper/data/mockData.ts:29-189 | the table starts as the literal |
| YearTable.MockTable.FillMissingYears | web/src/app/coursekeeper/data/mockData.ts:192-210 | the in-place loop turns the table into the completed table of its old contents |
| YearTable.HandAuthoredShape | web/src/app/coursekeeper/data/mockData.ts:30-188 | every hand-authored entry has its key as `year`, four changes and two videos (papers: two for 2012, three otherwise) |
| YearTable.FillerShape | web/src/app/coursekeeper/data/mockData.ts:194-207 | a filler has its key as `year`, an ADD then an EMERGE change, one paper and one video |
| YearTable.FillerVenueNamesYear | web/src/app/coursekeeper/data/mockData.ts:203 | a filler's venue "CVPR <year>" reads back as its year |
| YearTable.FillerTextsDistinct | web/src/app/coursekeeper/data/mockData.ts:203-206 | fillers of different years differ in paper title, venue and video title, since each embeds its year |
| YearTable.MockYearDataKeys | web/src/app/coursekeeper/data/mockData.ts:192-194 | the exported table has exactly the keys 2009..2024 |
| YearTable.LookupSpec | web/src/app/coursekeeper/data/mockData.ts:192-210 | `mockYearData[y]` is defined iff y is in 2009..2024; it is the hand-authored entry for those eight years and the filler otherwise |
| YearTable.MockYearDataWellFormed | web/src/app/coursekeeper/data/mockData.ts:29-210 | every entry carries its key as `year` and has at least two changes, one paper and one video |
| YearTable.LookupWellFormed | web/src/app/coursekeeper/data/mockData.ts:192-210 | looking up a year of 2009..2024 gives that year's entry with changes, papers and videos |
| Timeline.Years | web/src/app/coursekeeper/components/Timeline.tsx:36-40 | the year list is baseline, baseline+1, ..., of length max(0, 2024 − baseline + 1) |
| Timeline.YearEventsKeys | web/src/app/coursekeeper/components/Timeline.tsx:11-28 | `yearEvents` has exactly the keys 2009..2024 |
| Timeline.RenderFromLength | web/src/app/coursekeeper/components/Timeline.tsx:93-95 | from any position of the year list, for any event table keyed by exactly 2009..2024, one card is drawn per year from that point (or 2009, if later) to 2024 |
| Timeline.RenderFromAt | web/src/app/coursekeeper/components/Timeline.tsx:93-97 | the k-th card drawn from a position of the year list is the card of the k-th drawn year, with that year's event and its index in the whole list |
| Timeline.RenderFromSpec | web/src/app/coursekeeper/components/Timeline.tsx:93-97 | from any position of the year list, the cards drawn are exactly those for the years from that point (or 2009) to 2024, in order, each with its index in the whole list |
| Timeline.CardsSpec | web/src/app/coursekeeper/components/Timeline.tsx:93-141 | for any event table keyed by exactly 2009..2024, the cards are the years max(baseline, 2009)..2024 in order, left iff the year's index in the list is even, with the impact's dot style and "Must Learn" iff revolutionary |
| Timeline.RenderedSpec | web/src/app/coursekeeper/components/Timeline.tsx:93-141 | the timeline draws exactly max(baseline, 2009)..2024 in order; a card is left iff the year's index in the full list is even; its dot is the impact's style; it is "Must Learn" iff the impact is revolutionary |
| Timeline.DrawnYears | web/src/app/coursekeeper/components/Timeline.tsx:94-95 | a year is drawn iff it has an event and is not before the baseline |
| Timeline.EarlyBaselineFirstCard | web/src/app/coursekeeper/components/Timeline.tsx:93-97 | for a baseline before 2009 all sixteen events are drawn and the first card, 2009, is on the left iff the baseline lies an even number of years before it; so with the default 2008 it is on the right |
| Timeline.YearStyleDistinct | web/src/app/coursekeeper/components/Timeline.tsx:42-53 | revolutionary, high and medium get three distinct styles, and every other impact falls to the default |
| YearDetail.ChangeIconsDistinct | web/src/app/coursekeeper/components/YearDetail.tsx:23-36 | the four change types get four different icons, none of them the default |
| YearDetail.ChangeIconDefault | web/src/app/coursekeeper/components/YearDetail.tsx:33-34 | any string that names no change type gets the default icon |
| YearDetail.CountSlotOf | web/src/app/coursekeeper/components/YearDetail.tsx:101-105 | a count badge shows exactly for a positive count, with that count |
| YearDetail.EmptyPapersShowStrayZero | web/src/app/coursekeeper/components/YearDetail.tsx:101 | as written, a year with no papers shows a bare "0" beside the papers tab |
| YearDetail.TabsSpec | web/src/app/coursekeeper/components/YearDetail.tsx:83-105 | the tabs are summary, papers, videos and delta in that order; papers and videos count their lists; summary and delta have no count; the intended slot shows a badge only for a non-empty list; as written, the badge shows for the same tabs, and a stray 0 shows exactly on the papers or videos tab whose list is empty |
| YearDetail.SlotsAgreeWhenNonEmpty | web/src/app/coursekeeper/components/YearDetail.tsx:101 | with non-empty papers and videos, the written and the intended badges agree |
| YearDetail.CountSlotsAgreeOnTable | web/src/app/coursekeeper/components/YearDetail.tsx:85-86 | for every year of the table, the written and the intended badges agree |
| YearDetail.LearnableChanges | web/src/app/coursekeeper/components/YearDetail.tsx:226 | the filter keeps exactly the ADD and EMERGE changes (a change is in the result iff it is in the input and is ADD or EMERGE) and never lengthens the list |
| YearDetail.LearnableChangesAppend | web/src/app/coursekeeper/components/YearDetail.tsx:226 | filtering a concatenation concatenates the filtered parts |
| YearDetail.LearnableChangesIdentity | web/src/app/coursekeeper/components/YearDetail.tsx:226 | the filter returns its input iff every change is learnable |
| YearDetail.LearningPathSpec | web/src/app/coursekeeper/components/YearDetail.tsx:225-240 | the path has at most three items; it is the prefix of the ADD/EMERGE changes in order, shorter only when there are fewer; item i is ranked i+1 and estimated at 2+i hours |
| YearDetail.FillerLearningPath | web/src/app/coursekeeper/components/YearDetail.tsx:225-240 | a filler year's path is exactly its own two changes in order, the ADD change then the EMERGE change, at 2 and 3 hours |
| YearDetail.RecommendedTopic | web/src/app/coursekeeper/components/YearDetail.tsx:251 | the recommended topic is absent iff the year has no changes, and otherwise is the first change's title |
| YearDetail.TableYearsRecommend | web/src/app/coursekeeper/components/YearDetail.tsx:251 | every year of the table names a recommended topic |
| YearDetail.DetailView.constructor | web/src/app/coursekeeper/components/YearDetail.tsx:15-16 | the view opens on the summary tab with nothing sent |
| YearDetail.DetailView.SelectTab | web/src/app/coursekeeper/components/YearDetail.tsx:91 | clicking a tab opens it and changes nothing else |
| YearDetail.DetailView.EmailReport | web/src/app/coursekeeper/components/YearDetail.tsx:18-19 | the email button marks the report sent and keeps the open tab |
| UploadSection.YearOptionsSpec | web/src/app/coursekeeper/components/UploadSection.tsx:95 | the year options are 20 values, 2024 down to 2005, strictly descending, and no other year |
| UploadSection.YearChoiceOfOption | web/src/app/coursekeeper/components/UploadSection.tsx:91-96 | the text of every option is a valid year choice and parses back to that option |
| UploadSection.DisabledMatchesGuard | web/src/app/coursekeeper/components/UploadSection.tsx:26 | the button is enabled iff the submit guard passes and nothing is processing; the guard alone ignores processing |
| UploadSection.PresetsAreChoices | web/src/app/coursekeeper/components/UploadSection.tsx:146-176 | each preset's subject and year are options of the selects, and its file name is non-empty |
| UploadSection.UploadForm.constructor | web/src/app/coursekeeper/components/UploadSection.tsx:10-14 | the form starts with email '', year '2008', subject 'Computer Vision', no file, not processing |
| UploadSection.UploadForm.EditEmail | web/src/app/coursekeeper/components/UploadSection.tsx:57 | typing sets the email only |
| UploadSection.UploadForm.ChooseSubject | web/src/app/coursekeeper/components/UploadSection.tsx:74 | choosing a subject sets the subject only |
| UploadSection.UploadForm.ChooseYear | web/src/app/coursekeeper/components/UploadSection.tsx:92-96 | choosing a year stores its text, which parses back to it, and changes nothing else |
| UploadSection.UploadForm.FileChange | web/src/app/coursekeeper/components/UploadSection.tsx:17-22 | the file name changes only when a file is chosen |
| UploadSection.UploadForm.ApplyPreset | web/src/app/coursekeeper/components/UploadSection.tsx:146-176 | a preset sets file name, subject and year together to its triple |
| UploadSection.UploadForm.Submit | web/src/app/coursekeeper/components/UploadSection.tsx:24-34 | with an empty email or no file name nothing changes and nothing is reported; otherwise processing starts and (email, parsed year, subject) is reported, the year always one of 2005..2024 |
| CourseKeeperPage.NewSubjectOffered | web/src/app/coursekeeper/page.tsx:53-64 | "New Subject" is offered exactly in the timeline and detail stages |
| CourseKeeperPage.DetailOf | web/src/app/coursekeeper/page.tsx:85-92 | the detail view renders iff the stage is detail and the selected year is truthy, and it gets the table entry for that year |
| CourseKeeperPage.StepPreservesInv | web/src/app/coursekeeper/page.tsx:18-37 | every offered handler keeps the invariant: baseline in 2005..2024, any selected year in 2009..2024, and in the detail stage a selection no earlier than the baseline |
| CourseKeeperPage.ReachableInv | web/src/app/coursekeeper/page.tsx:12-37 | every state reached from the initial page through offered handler calls satisfies the invariant |
| CourseKeeperPage.DetailAlwaysRenders | web/src/app/coursekeeper/page.tsx:85-92 | on a reachable page the detail stage always renders, with a table entry for the selected year |
| CourseKeeperPage.YearsAfterIsTimelineIndex | web/src/app/coursekeeper/components/YearDetail.tsx:61 | on a reachable page the years-after figure is non-negative and is the year's index in the timeline's year list |
| CourseKeeperPage.TimelineNeverEmpty | web/src/app/coursekeeper/page.tsx:77-83 | on a reachable page the timeline draws at least one card, the last being 2024 |
| CourseKeeperPage.DrawnYearsHaveData | web/src/app/coursekeeper/components/Timeline.tsx:111 | every year a card reports when clicked has a table entry for that year |
| CourseKeeperPage.ClickEnabled | web/src/app/coursekeeper/components/Timeline.tsx:141 | in the timeline stage, any year from the baseline on that has an event can be clicked |
| CourseKeeperPage.ClickThenBack | web/src/app/coursekeeper/page.tsx:25-33 | opening a year and going back returns to the same timeline state with the selection cleared |
| CourseKeeperPage.StaleSelectionSurvivesNewUpload | web/src/app/coursekeeper/page.tsx:35-37 | going back to upload keeps the selected year, which survives a new upload next to the new baseline |
| CourseKeeperPage.CourseKeeper.constructor | web/src/app/coursekeeper/page.tsx:12-16 | initial state: upload stage, no selection, email '', baseline 2008, subject 'Computer Vision' |
| CourseKeeperPage.CourseKeeper.HandleUploadComplete | web/src/app/coursekeeper/page.tsx:18-23 | sets email, baseline and subject, moves to the timeline, and keeps the selection |
| CourseKeeperPage.CourseKeeper.HandleYearClick | web/src/app/coursekeeper/page.tsx:25-28 | selects the year and moves to detail; email, baseline and subject are kept |
| CourseKeeperPage.CourseKeeper.HandleBackToTimeline | web/src/app/coursekeeper/page.tsx:30-33 | moves to the timeline and clears the selection; email, baseline and subject are kept |
| CourseKeeperPage.CourseKeeper.HandleBackToUpload | web/src/app/coursekeeper/page.tsx:35-37 | changes only the stage, to upload |
| SeedFixtures.FixtureYearsShape | web/prisma/seed.ts:85-222 | eight fixture years, the table's hand-authored years in increasing order; 2012 has four changes and one paper, the others three and two |
| SeedFixtures.FixtureTotals | web/prisma/seed.ts:85-222 | 25 changes and 15 papers in all |
| SeedFixtures.BaselineTopicsShape | web/prisma/seed.ts:55-66 | ten baseline topics, importance between 6 and 10 |
| Seed.FindUser | web/prisma/seed.ts:9-10 | the lookup by email finds a user with that email, or reports that none exists |
| Seed.FindSubject | web/prisma/seed.ts:23-28 | `findFirst` finds a subject of that user with that title, or reports that none exists |
| Seed.DiffForSpec | web/prisma/seed.ts:237-248 | `fromTitle` is the title and `toTitle` null iff the change is a deprecation, the reverse otherwise; exactly one is set; type and rationale are copied; confidence 0.95, evidence empty, importance 8 |
| Seed.AllDiffsPerRun | web/prisma/seed.ts:224-250 | the diffs of each run created in the year loop are exactly one diff per change of its year, in order, so as many as the year has changes |
| Seed.NewRunDiffs | web/prisma/seed.ts:224-250 | a new run's diffs, beside older diffs that point at older runs, are exactly its year's diffs |
| Seed.AllDiffsRunIds | web/prisma/seed.ts:240 | every created diff points at one of the runs created in the same pass |
| Seed.AllCanonLength | web/prisma/seed.ts:253-271 | one canon item per paper |
| Seed.DeleteOrderKeepsDiffsLinked | web/prisma/seed.ts:44-52 | deleting the subject's diffs through its runs before the runs leaves no diff pointing at a missing run |
| Seed.RunsFirstLeavesDanglingDiff | web/prisma/seed.ts:45-52 | in the reverse order the relation filter would reach no run, and a diff of a deleted run would remain |
| Seed.CatalogStore.UpsertUser | web/prisma/seed.ts:9-17 | an existing user with the email is returned unchanged (empty update); otherwise exactly one is created; no other table changes |
| Seed.CatalogStore.FindOrCreateSubject | web/prisma/seed.ts:23-39 | an existing (user, title) subject is reused; otherwise exactly one is created |
| Seed.CatalogStore.ClearSubject | web/prisma/seed.ts:43-52 | deletes the subject's topics, then the diffs of its runs, then its runs, keeping diffs linked to runs |
| Seed.CatalogStore.CreateTopics | web/prisma/seed.ts:68-80 | appends one topic row per baseline topic, in order |
| Seed.CatalogStore.CreateYear | web/prisma/seed.ts:224-271 | appends one completed run with a fresh id, one diff per change pointing at it, and one canon item per paper |
| Seed.CatalogStore.CreateYears | web/prisma/seed.ts:224-274 | the year loop appends the runs, diffs and canon items of all fixture years in order |
| Seed.CatalogStore.Seed | web/prisma/seed.ts:5-277 | one user with the demo email and one reused-or-created subject, a miss appending exactly the new user or subject row; the subject's topics are exactly the ten fixture topics; its runs are exactly eight completed runs, one per fixture year, whose diffs are exactly their year's diffs; other subjects' topics and runs and the diffs of other runs are untouched; canon is only appended to |
| Seed.SeededTopics | web/prisma/seed.ts:44-80 | after clearing and recreating, the subject's topics are the fixture topics and other topics are unchanged |
| Seed.SeededRuns | web/prisma/seed.ts:52-234 | after clearing and recreating, the subject's runs are the new runs and other runs are unchanged |
| Seed.SeededDiffs | web/prisma/seed.ts:45-250 | after clearing and recreating, each new run's diffs are exactly its year's diffs, since surviving diffs point at older runs |
| Seed.SeededOtherDiffs | web/prisma/seed.ts:45-250 | after clearing and recreating, the diffs pointing at none of the subject's runs are exactly those the clearing kept |
| Seed.SeededCounts | web/prisma/seed.ts:55-271 | a seeded subject has 10 topics and 8 completed runs in fixture-year order; each run of the script adds 15 canon items |
| Seed.SeedTwice | web/prisma/seed.ts:9-271 | a second run finds the same user and subject as the first and adds no User or Subject row: after two runs the users are the old users or the old users plus that one user (unchanged when the demo user already existed), likewise for subjects (unchanged when that user already had the subject), and the canon table has grown by 30 |

## Left out

- web/src/app/api/test/apify/route.ts is not part of this model. It probes the network through a third-party SDK and `fetch`, with environment variables and an abort timeout.
- web/src/app/page.tsx is not part of this model. It is static landing markup.
- The database and its client are reduced to in-memory sequences. SQL, foreign-key enforcement, unique constraints and round trips are not modelled.
- A write failing partway through the seed is not modelled. The script then logs, exits with status 1 and leaves whatever was already written (web/prisma/seed.ts:279-285); the model assumes every write succeeds.
- Concurrent seed runs interleaving their deletes and creates are not modelled.
- Store ids come from one counter. Topics, diffs and canon items carry no id of their own, because nothing refers to them.
- The random canon confidence `0.9 + Math.random() * 0.1` is not modelled; it is floating point and random.
- All `createdAt`/`completedAt` timestamps are left out, and so are the console messages.
- The summaries, descriptions and videos of the seed's fixture years are not modelled, because the script never writes them.
- The long prose of the tables is left out because it is only displayed. Descriptions, rationales, authors and URLs of the page's table are empty strings. Rationales and URLs of the seed's fixtures are empty strings too.
- The following are kept: summaries, change types and titles, paper titles and venues, video titles and channels, and the seed's authors. The fillers' texts are kept in full.
- All `setTimeout` delays are left out:
  - the 2-second simulated processing: `Submit` reports at once;
  - the reset of the "sent" flags in the detail view and the timeline.
- The timeline's "Email All Yearly Reports" button and its hover state are left out, because neither changes anything the rest of the page reads.
- CSS class strings, SVG and layout are not modelled. Dot styles and icons are enumerations that stand for them.
- The form's file input is reduced to the chosen file's name. The browser's own checks on the email input (`type="email"`, `required`) are not modelled; the submit guard only asks for a non-empty email.
- Decimal.ParseInt: models `parseInt` only on text that starts with digits or with no digit at all. Leading blanks, a sign and other radixes are not modelled, because the form's year select only ever holds option values.
- After `onComplete` the page swaps the form out. The model's form is not unmounted and can submit again.
- The page's detail guard (web/src/app/coursekeeper/page.tsx:85) tests `selectedYear` for truthiness, so a selected year of 0 would print a bare "0" as the count badge does. No reachable page holds such a value (`ReachableInv` keeps selections in 2009..2024), so `DetailShown` reads the guard as "a year other than 0 is selected".
- YearDetail's static resource lines (Coursera, GitHub) and the deprecation notice are left out; they only interpolate the year and the baseline.

## Findings

| source | as written | input that shows it | evidently intended | confidence | as-written member | corrected member |
|---|---|---|---|---|---|---|
| web/src/app/coursekeeper/components/YearDetail.tsx:101 | `{tab.count && (<span>…)}` renders the number 0 as text when a count is 0 | a year whose `papers` (or `videos`) list is empty: the papers tab shows a bare "0" | show a count badge only for a positive count, and nothing otherwise | medium, not executed; no entry of the shipped table has an empty list (`CountSlotsAgreeOnTable`) | YearDetail.EmptyPapersShowStrayZero | YearDetail.CountSlotOf |
