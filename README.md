# IQAC feedback dashboards, modelled in Dafny

This project models the client-side analytics of the IQAC faculty-feedback
front end:

- the visualisation dashboard (`visualize/index.js`): the performance filter,
  the filtered course view with its "top 10 highest / lowest" ranking, the
  statistics, the pie chart and bar geometry, each course card's average and
  the descending display sort;
- the faculty-analysis page (`Analysis/index.js`): the avatar initials, the
  batch list of the selected course, the department-report dispatch and the
  download file names;
- the school-wise page (`school_wise/index.js`): the check before a report is
  requested, the request fields, and the sanitised download file name.

A course list is a `seq<Course>`; a faculty record's `overall_score` is an
`Option<real>` read through `ScoreOf` as `overall_score || 0`. Two places use
imperative Dafny because the code does: `Array.prototype.sort` is an in-place
stable insertion sort on an `array` (`StableSort.SortInPlace`), specified by
the function `SortBy`; the scans of `getFilteredData` and `getStatistics` are
methods with loops, proved equal to the functions `TopRanked`, `Regroup` and
`StatsOf`. The `groupedByCourse` object is a `map` from course code to group,
with a sequence of keys in insertion order standing for `Object.values`.

Modules: `Common` (optional values, `Math.round`, the extension rule),
`Dataset`, `Performance`, `StableSort`, `CategoryFilter`, `Ranking`,
`Grouping`, `FilterView`, `Statistics`, `Charts`, `Analysis`, `SchoolWise`.

A performance mode other than the seven named ones accepts every record (the
`default` branch of the `switch`), and `maxScore` / `minScore` are the raw
extreme scores, not rounded integers.

## Model

| member | source | states |
|---|---|---|
| Common.Round | src/components/visualize/index.js:188 | `Math.round` rounds half up: the result is the integer in (x - 0.5, x + 0.5] |
| Common.RoundMonotone | src/components/visualize/index.js:188 | rounding never reverses the order of two numbers |
| Common.FileExtension | src/components/Analysis/index.js:73 | the extension is `pdf` exactly for the `pdf` format and `xlsx` for every other format |
| Common.ExtensionSuffix | src/components/Analysis/index.js:73-74 | a name `body.ext` ends in `.pdf` exactly when the extension is `pdf`, in `.xlsx` exactly when it is `xlsx` |
| Dataset.FlattenAppend | src/components/visualize/index.js:129-133 | collecting the records of two course lists in turn gives the records of their concatenation |
| Performance.ParseModeName | src/components/visualize/index.js:338-344 | each of the seven selector values reads back as its own mode |
| Performance.ModeNameParse | src/components/visualize/index.js:96-113 | reading a selector string and naming the mode gives back the same string, so unknown strings are kept in `Other` |
| Performance.Classify | src/components/visualize/index.js:180-183 | the counting chain puts a score in exactly one category: excellent from 90, good in [80, 90), average in [70, 80), needs improvement below 70 |
| Performance.Accepts | src/components/visualize/index.js:91-114 | a category mode accepts a record exactly when the score's category is that one; every other mode, known or not, accepts every record |
| Performance.AcceptsAgreesWithClassify | src/components/visualize/index.js:91-114 | a category mode of the filter accepts a record exactly when the counting chain gives the record's score that category |
| Performance.BoundariesGoUp | src/components/visualize/index.js:97-104 | the boundary scores 90, 80 and 70 belong to the higher category |
| StableSort.SortByPermutation | src/components/visualize/index.js:136-140 | the sort is a permutation of its input |
| StableSort.SortBySorted | src/components/visualize/index.js:136-140 | the sort's result is in comparator order: non-increasing for `scoreB - scoreA`, non-decreasing for `scoreA - scoreB` |
| StableSort.SortByStable | src/components/visualize/index.js:136-140 | records with equal scores keep their relative order |
| StableSort.SortInPlace | src/components/visualize/index.js:136-140 | the in-place sort leaves the array holding the stable sort of its old contents |
| CategoryFilter.Keep | src/components/visualize/index.js:122 | the faculty filter returns no more records than it is given, each of them accepted by the mode |
| CategoryFilter.CategoryView | src/components/visualize/index.js:120-123 | the category view has no more courses than the data, and each of its courses has faculty |
| CategoryFilter.KeepIsFilter | src/components/visualize/index.js:122 | the faculty filter returns a subsequence of its input that holds every accepted record as often as the input does and no other record |
| CategoryFilter.CategoryViewFlatten | src/components/visualize/index.js:120-123 | the records of the category view are exactly the accepted records of the data, in their original order |
| CategoryFilter.CategoryViewShape | src/components/visualize/index.js:120-123 | every course of the view is non-empty and holds only accepted records, the view keeps the course order, and no course with an accepted record is missing |
| CategoryFilter.AllKeepsNonEmptyCourses | src/components/visualize/index.js:120-123 | under `all` and every other mode that is not a category, a list of courses that all have faculty comes back unchanged |
| CategoryFilter.AllDropsEmptyCourses | src/components/visualize/index.js:123 | under every mode, `all` included, a course without faculty is dropped, so the view is shorter than the data |
| CategoryFilter.KeepAll | src/components/visualize/index.js:91-114 | under `all`, `highest`, `lowest` and every unknown mode the faculty filter keeps every record |
| Ranking.TagAllFaculties | src/components/visualize/index.js:128-133 | the collected list holds every record of every course, course after course |
| Ranking.TagAllTags | src/components/visualize/index.js:131 | each collected record carries the code and name of a course it belongs to |
| Ranking.CollectRanked | src/components/visualize/index.js:128-133 | the nested `forEach` builds exactly the tagged list of all records |
| Ranking.TopRanked | src/components/visualize/index.js:136-143 | the ranking keeps min(10, number of records) records |
| Ranking.TopRankedSorted | src/components/visualize/index.js:136-143 | the kept records are in score order for the chosen direction |
| Ranking.TopRankedIsBest | src/components/visualize/index.js:136-143 | the kept records come from the data, and no record left out beats a kept record |
| Ranking.TopRankedStable | src/components/visualize/index.js:136-143 | among records with equal scores, the kept ones are the first in collection order |
| Grouping.AddToGroups | src/components/visualize/index.js:147-155 | one record either joins an existing group or opens exactly one new group |
| Grouping.Regroup | src/components/visualize/index.js:146-158 | there are never more groups than ranked records |
| Grouping.RegroupNonEmpty | src/components/visualize/index.js:146-155 | every group holds at least the record that opened it |
| Grouping.FirstCodesDistinct | src/components/visualize/index.js:146-156 | each course code opens one group only |
| Grouping.FirstCodesOrder | src/components/visualize/index.js:146-158 | groups appear in the order their codes are first seen |
| Grouping.RegroupProperties | src/components/visualize/index.js:146-158 | the groups' codes are the ranked codes in first-seen order, without repeats; each group has the name of its first record and holds that code's records in ranked order; together the groups hold exactly the ranked records |
| Grouping.GroupByCourse | src/components/visualize/index.js:146-158 | the object-and-`Object.values` loop computes the regrouping of the ranked records |
| FilterView.View | src/components/visualize/index.js:117-162 | every course of the view has faculty; the ranked view has at most ten courses, the category view no more than the data |
| FilterView.RankedViewContents | src/components/visualize/index.js:126-159 | the ranked view holds exactly the kept records, min(10, all records) of them, in distinct groups by code |
| FilterView.RankedView | src/components/visualize/index.js:128-158 | collect, sort in place, take ten and regroup yields the regrouped ranking |
| FilterView.GetFilteredData | src/components/visualize/index.js:117-162 | no view without loaded data; otherwise the ranking for `highest`/`lowest` and the category view for every other mode |
| Statistics.Bump | src/components/visualize/index.js:180-183 | one counter step raises the score's category by one and leaves the other three |
| Statistics.SeqMax | src/components/visualize/index.js:194 | the maximum is one of the scores and no score exceeds it |
| Statistics.SeqMin | src/components/visualize/index.js:195 | the minimum is one of the scores and no score is below it |
| Statistics.TallyCounts | src/components/visualize/index.js:175-185 | each counter equals the number of scores in its category |
| Statistics.TallyTotal | src/components/visualize/index.js:175-185 | the four counters add up to the number of scores |
| Statistics.StatsOf | src/components/visualize/index.js:187-197 | the total is the number of records and the counters add up to it; with records, the extremes are scores of the view bounding every score; with none, everything is 0 |
| Statistics.StatsShape | src/components/visualize/index.js:175-197 | each counter of the statistics equals the number of records in its category |
| Statistics.StatsBounds | src/components/visualize/index.js:187-195 | with at least one record the extremes bound the mean |
| Statistics.StatsRoundedMean | src/components/visualize/index.js:187-189 | the rounded mean lies between the rounded extremes |
| Statistics.CountScore | src/components/visualize/index.js:180-183 | the `if`/`else` chain bumps exactly the counter of the score's category |
| Statistics.AddCourse | src/components/visualize/index.js:176-184 | the inner loop appends the course's scores and keeps the counters equal to the tally of all scores pushed |
| Statistics.GetStatistics | src/components/visualize/index.js:166-198 | no statistics without loaded data; otherwise the statistics of the filtered view, or of the data when there is no view |
| Statistics.CategoryViewStats | src/components/visualize/index.js:175-185 | under a category mode the view's counter for that category equals its total and the other counters are 0 |
| Statistics.AllViewStats | src/components/visualize/index.js:92-123 | under `all` and under an unknown mode the statistics are those of the whole data, although empty courses are dropped |
| Statistics.RankedViewStats | src/components/visualize/index.js:143 | under `highest` and `lowest` the statistics cover min(10, all records) records |
| Charts.PieChart | src/components/visualize/index.js:202-226 | no pie without statistics or with no faculty; otherwise the circumference is the given one |
| Charts.PieGeometry | src/components/visualize/index.js:207-225 | each arc is its category's share of the circumference, the offsets start at 0 and follow one another, and with consistent counters the arcs fill the circle |
| Charts.PieOfStatistics | src/components/visualize/index.js:202-226 | for a non-empty view the pie exists, its arcs fill the circle and no arc is negative or longer than the circle |
| Charts.BarWidth | src/components/visualize/index.js:522 | the width is 0 without faculty, otherwise the category's share of 100 as the pie takes it of the circle, and within [0, 100] when the count is part of the total |
| Charts.BarPercentage | src/components/visualize/index.js:526 | the label is 0 when there is no faculty and lies in [0, 100] when the count is at most the total |
| Charts.BarPercentageMonotone | src/components/visualize/index.js:526 | a larger count never gets a smaller label, and the whole gets 100 |
| Charts.BarWidthsSum | src/components/visualize/index.js:522-576 | with consistent counters the four bar widths add up to 100% |
| Charts.StatsBars | src/components/visualize/index.js:522-580 | every bar label of the statistics lies in [0, 100] |
| Charts.CourseAverage | src/components/visualize/index.js:599-601 | the course average is the statistics' rounded mean of the course's scores and lies between its rounded extreme scores |
| Charts.CourseAverageAgrees | src/components/visualize/index.js:599-601 | the course average is what the statistics report for a view holding only that course |
| Charts.CourseExtremes | src/components/visualize/index.js:599-601 | the course's lowest and highest scores bound each of its scores |
| Charts.SortForDisplay | src/components/visualize/index.js:616 | the display sort leaves the faculty in non-increasing score order, a permutation of the old order, ties in their old order |
| Charts.DisplayOrder | src/components/visualize/index.js:616 | the display order is sorted, a permutation, and stable for every score |
| Charts.Dashboard | src/components/visualize/index.js:164-228 | one render computes the view, its statistics and the pie, whose arcs fill the circle whenever it exists |
| Analysis.Trim | src/components/Analysis/index.js:34 | trimming gives `""` exactly for an all-white-space name, and otherwise the name from its first to its last non-space character |
| Analysis.SplitWs | src/components/Analysis/index.js:34 | the split gives at least one piece, no piece contains white space, and `""` splits into `[""]` |
| Analysis.SplitEnds | src/components/Analysis/index.js:34-36 | a trimmed name splits first into its leading word and last into its trailing word, and into one piece exactly when it has no white space |
| Analysis.UpperChar | src/components/Analysis/index.js:37 | a lower-case ASCII letter becomes the matching upper-case letter; every other character stays |
| Analysis.Upper | src/components/Analysis/index.js:37 | upper-casing keeps the length, leaves no lower-case ASCII letter and keeps every other character in place |
| Analysis.Initials | src/components/Analysis/index.js:32-39 | the initials are never empty and hold no lower-case ASCII letter |
| Analysis.InitialsOfNothing | src/components/Analysis/index.js:33-38 | a missing name or one of white space only gives `?` |
| Analysis.InitialsOfName | src/components/Analysis/index.js:32-39 | otherwise the initials are one or two letters: the upper-cased first non-space character, and, exactly when the name has inner white space, the upper-cased first character of its last word |
| Analysis.FindCourse | src/components/Analysis/index.js:292 | `find` gives nothing exactly when no course has the code, and otherwise the first course of the list with that code |
| Analysis.AvailableBatches | src/components/Analysis/index.js:289-296 | no batches without a selected course; a non-empty list starts with `all`, followed by the batches of the course `find` returns |
| Analysis.AvailableBatchesCases | src/components/Analysis/index.js:289-296 | the batch list is empty exactly without a selected course, a course with its code or batches; otherwise it is `all` followed by the batches |
| Analysis.AvailableBatchesFirstMatch | src/components/Analysis/index.js:292-295 | the batches offered are those of the first course with the selected code |
| Analysis.DepartmentReport | src/components/Analysis/index.js:41-101 | no request without a degree and a department; the all-batches report exactly for batch `all`; the single-batch report otherwise, with the selected fields |
| Analysis.AllBatchesAfterCheck | src/components/Analysis/index.js:87-91 | the all-batches handler sends no request exactly when the degree or the department is missing |
| Analysis.DepartmentFilename | src/components/Analysis/index.js:74 | the single-batch name starts with `department_feedback_`, the department and `_`, and ends with the format's extension |
| Analysis.AllBatchesFilename | src/components/Analysis/index.js:112 | the all-batches name starts with `department_feedback_`, the department and `_`, and ends with `_ALL_BATCHES.` and the extension |
| Analysis.FilenameShape | src/components/Analysis/index.js:73-112 | a report's name starts with the department and ends in `.pdf` exactly for the `pdf` format, `.xlsx` otherwise |
| Analysis.DepartmentFilenameInjective | src/components/Analysis/index.js:74 | within one department and format, distinct batches get distinct file names |
| SchoolWise.Sanitize | src/components/school_wise/index.js:121 | the safe name has the school name's length, keeps its ASCII letters and digits and turns every other character into `_` |
| SchoolWise.SanitizeIdempotent | src/components/school_wise/index.js:121 | sanitising a safe name changes nothing, and a name of ASCII letters and digits is already safe |
| SchoolWise.SchoolFilename | src/components/school_wise/index.js:122 | the download name starts with the safe school name and `_school_report.`, and holds only ASCII letters, digits, `_` and `.` |
| SchoolWise.SchoolFilenameShape | src/components/school_wise/index.js:120-122 | the download name ends in `.pdf` exactly for the `pdf` format, `.xlsx` otherwise |
| SchoolWise.ReportRequest | src/components/school_wise/index.js:93-107 | no request without a school; otherwise the school and format as selected, the degree or `""`, and the batch `all` sent as `ALL` |

## Left out

- Network requests, React state, `alert`, `sessionStorage`, `localStorage`, the DOM and the blob download are left out; the data a component works on is a parameter.
- Numbers are exact reals and naturals rather than IEEE doubles; the pie's circumference `2 * Math.PI * 80` is a parameter.
- Charts.Dashboard: the spread `Math.max(...allScores)` fails in JavaScript for very long lists; the model has no such limit.
- Grouping.GroupByCourse: `Object.values` lists integer-like keys (a course code such as `"101"`) in numeric order before the others; the model keeps pure insertion order.
- Grouping.GroupByCourse: the pushed records keep their `course_code` and `course_name` tags in JavaScript; the model's groups hold the untagged records (the tags equal the group's code and the first record's name).
- StableSort.SortInPlace: `Array.prototype.sort` is a library call; the ECMAScript standard has required it to be stable since its 2019 edition, without fixing the algorithm. With the code's numeric comparators, which are consistent orders, every stable sort gives the same result, so a stable insertion sort stands in for it.
- Charts.SortForDisplay: the code sorts each course's own array in place, which also reorders the list held by the filtered view; the model sorts a separate array.
- Analysis.Initials: `toUpperCase` is modelled on ASCII letters only; full Unicode case mapping (where `ß` becomes `SS`) is not modelled.
- Analysis.Initials and SchoolWise.Sanitize: strings are sequences of characters, not UTF-16 code units, so a character outside the Basic Multilingual Plane counts once (JavaScript's `[0]` and `/[^a-z0-9]/g` see two code units).
- The score colours (`high`/`medium`/`low`), the `staffid || staff_id` fallback and the other display-only markup are not modelled.
- Fetching the degree, department, school and batch option lists is I/O and is left out.
- The payload is taken as well formed: every course has a `faculties` array (otherwise the `filter` on line 122 of `visualize/index.js` throws), every `overall_score` is a number or missing (a string score survives `|| 0` and the `reduce` on line 188 concatenates it), and no course code names an `Object.prototype` property such as `constructor`, `toString` or `__proto__` (otherwise line 148 sees a truthy value, opens no group, and the `push` on line 155 throws a `TypeError`).
