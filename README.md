# A verified model of the dseomn website generator's core rules

The site behind david.mandelberg.org is built by a Python generator. It
turns page metadata (TOML tables next to each template) into pages and
blog posts. It maps URL paths to files under `output/` and back, checks
and rewrites the heading structure of the generated HTML, and builds
`mailto:` links. Build steps copy assets under cache-busting names and
write content-negotiation (`.var`) files for pre-compressed copies. It
also derives the file names of resized images, summarises their EXIF
data, and assembles CSS font stacks.

This project restates those rules in Dafny and proves what the code
promises about them. Each Dafny module follows one Python module of
`src/dseomn_website/`:

| Dafny module | Python module | form |
|---|---|---|
| `Metadata` (metadata.dfy) | metadata.py | datatypes and functions; TOML tables are maps |
| `Pagination` (pagination.dfy) | pagination.py | a recursive sequence function |
| `Paths` (paths.dfy), over `PurePath` (pure_path.dfy) | paths.py, over its `Filesystem` path, taken to be a `pathlib.PurePosixPath` | functions on a parsed path |
| `HtmlTree`, `Lint` (html_tree.dfy, lint.dfy) | lint.py | predicates over an element tree |
| `Headings` (headings.dfy) | headings.py | a class whose methods rewrite elements in place |
| `Iri`, `Percent` (iri.dfy, percent.dfy) | iri.py, over `urllib.parse` | a query built by a method, then a pure assembly |
| `Ninja` (ninja.dfy) | `_ninja_escape` in cache_buster.py and compress.py | functions |
| `CacheBuster` (cache_buster.dfy) | cache_buster.py | functions, and a class for the copy step's file system |
| `Compress` (compress.dfy) | compress.py | functions, and a method that builds the `.var` parts |
| `Media` (media.dfy) | media.py | datatypes and functions |
| `ImageMetadata` (image_metadata.dfy) | image_metadata.py | functions, and a method that builds the summary step by step |
| `FontStacks`, `Fonts`, `CssConstants` (font_stacks.dfy, fonts.dfy, css_constants.dfy) | fonts.py, css_constants.py | functions and constants |
| `Strings`, `SortedSets`, `Wrappers` | Python's `str` methods, `sorted(set(...))`, results | shared helpers |

Errors that the Python code raises become `Failure` values of a `Result`
type. Each failure carries the condition that caused it.

## Model

| member | source | states |
|---|---|---|
| Pagination.Nav | src/dseomn_website/pagination.py:8-37 | every listed page number lies in `1..total`, and the numbers strictly increase |
| Pagination.NavFrom | src/dseomn_website/pagination.py:25-37 | the entries for the pages from a start page on; stated by `NavFromSorted`, `NavFromShown`, `NavFromLast`, `NavFromNone` and `NavFromLength` |
| Pagination.NavFromSorted | src/dseomn_website/pagination.py:25 | for the pages from any start page on, the numbers listed stay in range and increase |
| Pagination.NavFromShown | src/dseomn_website/pagination.py:25-37 | a page from the start page on is listed exactly when it is page 1, the last page, inside the window, or page 2 or `total - 1` at exactly one step past the window |
| Pagination.NavShown | src/dseomn_website/pagination.py:25-37 | page `p` is listed if and only if `1 <= p <= total` and it is page 1, the last page, within `show_either_side` of the current page, or page 2 / `total - 1` at distance `show_either_side + 1` |
| Pagination.WindowShown | src/dseomn_website/pagination.py:26-29 | the first page, the last page and every page of the window are always listed |
| Pagination.NavEmpty | src/dseomn_website/pagination.py:25 | with no pages (`total <= 0`) the list is empty |
| Pagination.NavFromLast | src/dseomn_website/pagination.py:26-27 | the entries from any page up to `total` end with the last page |
| Pagination.NavEnds | src/dseomn_website/pagination.py:26-27 | a non-empty list starts with page 1 and ends with page `total` |
| Pagination.EllipsisAt | src/dseomn_website/pagination.py:30-37 | an ellipsis found in a list of entries is at one of the two places allowed for it |
| Pagination.NavFromNone | src/dseomn_website/pagination.py:30-37 | from page 2 on, an ellipsis can only be the first entry, standing for page 2, or the entry just before the last page, standing for page `total - 1` |
| Pagination.NavNone | src/dseomn_website/pagination.py:30-37 | every ellipsis is strictly inside the list and stands either right after page 1 (page 2 not shown) or right before the last page (page `total - 1` not shown), so there are at most two |
| Pagination.NavFromLength | src/dseomn_website/pagination.py:25 | the entries for pages `page..total` number at most `total - page + 1` |
| Pagination.NavLength | src/dseomn_website/pagination.py:25 | the list is never longer than the number of pages |
| Pagination.EllipsisHidesTwoPages | src/dseomn_website/pagination.py:30-37 | with a window of at least one page and the current page in range, the numbers on either side of an ellipsis differ by at least three, so an ellipsis never hides a single page |
| Pagination.EllipsisOfOnePageWithoutWindow | src/dseomn_website/pagination.py:28-37 | with `show_either_side = 0` an ellipsis can hide one page: current page 4 of 4 gives `[1, None, 3, 4]` |
| Pagination.FixturesWithoutEllipsis | src/dseomn_website/pagination_test.py:10-24 | the test cases that list every page: `(1, 1)`, `(1, 5)`, `(5, 5)`, `(4, 7)`, `(5, 9)` |
| Pagination.FixturesWithEllipsis | src/dseomn_website/pagination_test.py:10-24 | the test cases with ellipses: `(1, 6)`, `(6, 6)` and `(6, 11) → [1, None, 4, 5, 6, 7, 8, None, 11]` |
| Paths.FromUrlPath | src/dseomn_website/paths.py:16-35 | an unknown `dir_index` fails first; then a URL path without a leading `/` fails; `/` is `output/<dir_index>`; every other URL path with a leading `/` succeeds with a normalised path; unless it starts with `//` the result lies under `output`, and when it does the result has the root of the text after the first `/` (`//` for exactly three leading slashes, `/` otherwise) |
| Paths.JoinUnder | src/dseomn_website/paths.py:33-35 | joining a relative string onto a path keeps that path as a prefix |
| Paths.ToUrlPath | src/dseomn_website/paths.py:38-50 | fails exactly for paths not under `output`, naming the path; otherwise the URL path starts with `/` |
| Paths.DirIndexesValid | src/dseomn_website/paths.py:10-13 | both directory index names are single path parts |
| Paths.JoinName | src/dseomn_website/paths.py:30-33 | joining a single part appends it to the path's parts |
| Paths.KeepPartsAppend | src/dseomn_website/paths.py:33-35 | normalising the parts of a joined path normalises each half |
| Paths.JoinedEnds | src/dseomn_website/paths.py:31-32 | the text of a non-empty relative path neither starts nor ends with `/` |
| Paths.ParseJoinedDirectory | src/dseomn_website/paths.py:33 | parsing `a/b/` gives back the parts `a`, `b` |
| Paths.ParseJoinedFile | src/dseomn_website/paths.py:35 | parsing `a/b` gives back the parts `a`, `b` |
| Paths.FromDirectoryUrl | src/dseomn_website/paths.py:31-33 | `/a/b/` maps to `output/a/b/<dir_index>` |
| Paths.FromFileUrl | src/dseomn_website/paths.py:31-35 | `/a/b` maps to `output/a/b` |
| Paths.ToDirectoryIndex | src/dseomn_website/paths.py:43-48 | `output/a/b/index.html` (or `index.xml`) maps to `/a/b/`, and `output/index.html` to `/` |
| Paths.ToFile | src/dseomn_website/paths.py:43-50 | a file under `output` that is not a directory index maps to `/` followed by its relative path |
| Paths.FromAnyDirectoryUrl | src/dseomn_website/paths.py:29-33 | every directory URL path, the root included, maps to the index file in that directory |
| Paths.FromIndexFileUrl | src/dseomn_website/paths.py:31-35 | a URL path that names an index file maps to that file, whatever `dir_index` is given |
| Paths.UrlPathRoundTrip | src/dseomn_website/paths.py:16-50 | `to_url_path(from_url_path(u, dir_index=d)) == u` for every directory URL path and every file URL path whose last part is not an index name |
| Paths.IndexFileUrlCollapses | src/dseomn_website/paths.py:16-50 | `/a/index.html` and `/a/` map to the same file, and that file maps back to `/a/` |
| Paths.FilePathRoundTrip | src/dseomn_website/paths.py:16-50 | every file strictly under `output` maps to a URL path that maps back to it, given its own index name |
| Paths.OutputDirectoryTo | src/dseomn_website/paths.py:41-50 | `output` itself maps to `/.` |
| Paths.OutputDirectoryFrom | src/dseomn_website/paths.py:27-35 | `/.` maps back to `output` (not to `output/index.html`) |
| Paths.FromUrlPathDoubleSlash | src/dseomn_website/paths.py:31-35 | `///foo` leaves `output` for the path `//foo` under the POSIX `//` root |
| Paths.FromUrlPathTwoSlashes | src/dseomn_website/paths.py:31-35 | `//foo` leaves `output` for the path `/foo` |
| Paths.FromFixturesRejected | src/dseomn_website/paths_test.py:22-36 | the two rejected test arguments fail with the invalid-index and relative-path errors |
| Paths.FromFixtureRoot | src/dseomn_website/paths_test.py:42 | `/` maps to `output/index.html` |
| Paths.FromFixtureDirectory | src/dseomn_website/paths_test.py:43 | `/foo/` maps to `output/foo/index.html` |
| Paths.FromFixtureFile | src/dseomn_website/paths_test.py:44 | `/foo` maps to `output/foo` |
| Paths.ToFixtureOutside | src/dseomn_website/paths_test.py:53-55 | `foo` is not under `output` and fails |
| Paths.ToFixtureRoot | src/dseomn_website/paths_test.py:61 | `output/index.html` maps to `/` |
| Paths.ToFixtureDirectory | src/dseomn_website/paths_test.py:62 | `output/foo/index.html` maps to `/foo/` |
| Paths.ToFixtureFile | src/dseomn_website/paths_test.py:63 | `output/foo` maps to `/foo` |
| PurePath.KeepParts | src/dseomn_website/paths.py:33-35 | the parts kept by path parsing are never empty or `.`, and contain no `/` when none of the raw parts does |
| PurePath.RootOf | src/dseomn_website/paths.py:33-35 | text has no root exactly when it does not start with `/`, and has the POSIX `//` root exactly when it starts with two slashes but not three |
| PurePath.Parse | src/dseomn_website/paths.py:33-35 | parsing a string always gives a normalised path |
| PurePath.ParseStr | src/dseomn_website/paths.py:48-50 | printing a normalised path and parsing the text again gives the same path |
| PurePath.JoinPath | src/dseomn_website/paths.py:30-35 | joining onto a normalised path keeps it normalised |
| PurePath.JoinPart | src/dseomn_website/paths.py:30-35 | joining a single normalised part appends it and keeps the root |
| PurePath.WithSuffix | src/dseomn_website/media.py:72-84 | `with_suffix` succeeds exactly for an empty suffix or one that starts with `.`, is not `.` and has no `/`, on a path with a name; the result keeps the parent and its name is the old stem plus the new suffix |
| PurePath.RelativeTo | src/dseomn_website/paths.py:43 | `relative_to` gives a relative path that, appended to the base, is the original path |
| PurePath.LastDot | src/dseomn_website/media.py:104-106 | the index of the last `.` in a name, or -1 when there is none |
| PurePath.SuffixOfDotted | src/dseomn_website/media.py:104-106 | a dot-free stem, a dot and a dot-free extension have that extension as their suffix and that stem as their stem |
| PurePath.StemSuffix | src/dseomn_website/media.py:100-106 | a name is its stem followed by its suffix |
| HtmlTree.Preorder | src/dseomn_website/lint.py:12-28 | the elements a selection visits start with the element itself, followed by its descendants in document order |
| HtmlTree.PreorderAllMember | src/dseomn_website/lint.py:28 | an element lies below a list of children exactly when it lies in the subtree of one of them |
| HtmlTree.PreorderTransitive | src/dseomn_website/lint.py:26-29 | being in a subtree is transitive |
| HtmlTree.DescendantTransitive | src/dseomn_website/lint.py:26-29 | a descendant of a descendant is a descendant |
| HtmlTree.PreorderSplit | src/dseomn_website/lint.py:28-30 | the elements an article's selection visits are the article itself and its proper descendants |
| Lint.CheckHeadings | src/dseomn_website/lint.py:10-19 | the heading check passes exactly when no element has a heading error; otherwise it reports the error of the first element that has one |
| Lint.HeadingsPass | src/dseomn_website/lint.py:10-19 | the heading check passes if and only if every h1-h6 element has exactly one class among h1-h6, whatever its own level |
| Lint.Headings | src/dseomn_website/lint.py:10-19 | `_headings`; stated by `HeadingsPass` |
| Lint.HeadingErrorKinds | src/dseomn_website/lint.py:14-19 | a heading error names a heading tag and either has no heading class or names more than one heading class |
| Lint.CheckDescendants | src/dseomn_website/lint.py:28-36 | the inner loop passes exactly when every id-bearing descendant's id starts with `article_id + "-"`, and otherwise reports one that does not |
| Lint.CheckArticles | src/dseomn_website/lint.py:26-36 | the outer loop passes exactly when the inner check passes for every `article[id]`, and otherwise reports one article's failure |
| Lint.IdsPass | src/dseomn_website/lint.py:22-36 | the id check passes if and only if every id-bearing proper descendant of every article with an id carries that article's id and a hyphen as a prefix |
| Lint.Ids | src/dseomn_website/lint.py:22-36 | `_ids`; stated by `IdsPass` |
| Lint.NestedArticles | src/dseomn_website/lint.py:26-29 | in a passing tree, an article inside another carries the outer prefix, and so do the inner article's own descendants, which also carry the inner prefix |
| Lint.IdlessElement | src/dseomn_website/lint.py:26 | an element without an id, an article included, adds no constraint: the tree passes exactly when each child's subtree does |
| Lint.Html | src/dseomn_website/lint.py:39-43 | the whole check; its property is stated by `Lint.HtmlPass` |
| Lint.HtmlPass | src/dseomn_website/lint.py:39-43 | the page passes exactly when both rules hold, and a heading problem is never reported as an id problem |
| Lint.HeadingFixtures | src/dseomn_website/lint_test.py:71-98 | `<h1 class="h1 h2">` has multiple heading classes, and `<h2 class="h1">` passes |
| Lint.BareHeadingFixture | src/dseomn_website/lint_test.py:41-46 | a bare `<h1>` to `<h6>` without a heading class fails, naming its tag |
| Lint.DocumentHeadingFixture | src/dseomn_website/lint_test.py:47-70 | the same heading inside `<!doctype html><body>` fails the same way |
| Lint.ArticleInDivOrder | src/dseomn_website/lint_test.py:73-100 | the test's `div > article > div > p` fragment is visited in that order and has no heading |
| Lint.ArticleInDivIds | src/dseomn_website/lint.py:26-36 | that fragment fails exactly when the article has an id and the paragraph's id lacks its prefix |
| Lint.IdFixtureUnprefixed | src/dseomn_website/lint_test.py:72-75 | `p id="bar"` inside `article id="foo"` fails |
| Lint.IdFixturePrefixed | src/dseomn_website/lint_test.py:99 | `p id="foo-bar"` inside `article id="foo"` passes |
| Lint.IdFixtureIdlessArticle | src/dseomn_website/lint_test.py:100 | an article without an id imposes nothing |
| Lint.NestedArticleOrder | src/dseomn_website/lint_test.py:76-118 | the nested-article fragment is visited as outer, inner, paragraph, with no heading |
| Lint.NestedArticleIds | src/dseomn_website/lint.py:26-36 | the nested fragment checks the inner article's id and then the paragraph's against the outer article, and then the paragraph's against the inner article, reporting the first failure |
| Lint.NestedFixtureUnprefixed | src/dseomn_website/lint_test.py:76-87 | `p id="quux"` in `foo-bar` in `foo` fails on the outer prefix |
| Lint.NestedFixturePrefixed | src/dseomn_website/lint_test.py:101-109 | `p id="foo-bar-quux"` in `foo-bar` in `foo` passes |
| Lint.CommentArticleNotExempt | src/dseomn_website/lint.py:26-36 | no class exempts an inner article: an id with the outer prefix but not the inner one fails against the inner article |
| Lint.CommentArticleFixture | src/dseomn_website/lint_test.py:110-118 | the `class="comment"` fragment that the tests expect to pass is rejected by the check as written |
| Headings.LevelOf | src/dseomn_website/headings.py:16 | a tag has a level exactly when it is one of `h1`..`h6`, and that level spells the tag back |
| Headings.LevelOfHeadingTag | src/dseomn_website/headings.py:16-26 | the level of `h{n}` is `n`, for `n` in 1..6 |
| Headings.AddClass | src/dseomn_website/headings.py:27 | adding a class to an element's class set keeps the old classes in order, adds the new one, and changes nothing when it is already there |
| Headings.AddClassIdempotent | src/dseomn_website/headings.py:27 | adding the same class twice is the same as adding it once |
| Headings.Select | src/dseomn_website/headings.py:15-17 | selecting by tag gives, in document order and without repeats, exactly the elements with that tag |
| Headings.FailingFrom | src/dseomn_website/headings.py:18-24 | the first level from a given one up to 6 that has headings and cannot move, if there is one; no level before it fails |
| Headings.RewriteTags | src/dseomn_website/headings.py:25-26 | rewriting tags keeps the number of elements |
| Headings.RewriteAllClasses | src/dseomn_website/headings.py:25-27 | rewriting classes keeps the number of elements |
| Headings.Fragment.constructor | src/dseomn_website/headings.py:14 | the parsed fragment holds the tag and classes of each element of the tree, in document order |
| Headings.Fragment.Valid | src/dseomn_website/headings.py:8-28 | the fragment's invariant, one class list per element; the constructor establishes it and `AdjustLevel` and `RewriteLevel` keep it |
| Headings.Fragment.Article | src/dseomn_website/headings.py:8-28 | the result is an error naming the lowest level that has headings and would leave 1..6, or success; every heading of a level below the level where the loop stopped has moved by `offset` and gained its old level as a class, and nothing else has changed |
| Headings.Fragment.AdjustLevel | src/dseomn_website/headings.py:18-27 | one pass of the level loop: a level without headings is skipped, a level that cannot move stops the loop with nothing changed, and otherwise every heading of the level moves |
| Headings.Fragment.RewriteLevel | src/dseomn_website/headings.py:25-27 | every selected element gets the new tag and the class; every other element keeps its tag and classes |
| Headings.StopsAt | src/dseomn_website/headings.py:21-24 | a level with headings that cannot move is where the check fails |
| Headings.NotPresent | src/dseomn_website/headings.py:19-20 | an empty selection means the level has no headings |
| Headings.RewriteSkipsLevel | src/dseomn_website/headings.py:19-20 | a level without headings leaves every element as it is |
| Headings.LevelDone | src/dseomn_website/headings.py:25-27 | after the inner loop every heading of the level has been rewritten |
| Headings.SelectedAt | src/dseomn_website/headings.py:16 | an element is selected by a tag exactly when it has that tag |
| Headings.LevelDoneAt | src/dseomn_website/headings.py:25-27 | the same for a single element |
| Headings.FailsExactly | src/dseomn_website/headings.py:18-24 | the error is raised if and only if some level that has headings would leave 1..6, and it names the lowest such level |
| Headings.HeadingRewrittenOnce | src/dseomn_website/headings.py:15-27 | when no level fails, a heading of level `l` ends as level `l + offset`, moved once and not once per level it passes, and carries class `hl` |
| Headings.NonHeadingsUnchanged | src/dseomn_website/headings.py:15-27 | elements other than h1-h6 keep their tag and classes |
| Headings.ZeroOffset | src/dseomn_website/headings.py:21-26 | with offset 0 nothing fails and every tag stays as it is |
| Headings.NoHeadings | src/dseomn_website/headings.py:19-20 | a fragment without headings passes for any offset and is left as it is |
| Headings.Fixture | src/dseomn_website/headings_test.py:8-39 | the test's article with h1-h6, a div and a paragraph keeps its tags and gains one heading class per heading |
| Percent.Utf8Char | src/dseomn_website/iri.py:24-28 | the UTF-8 encoding of a code point is one to four bytes: one byte, equal to the code point, exactly for ASCII, and otherwise a lead byte giving the length followed by continuation bytes |
| Percent.Utf8 | src/dseomn_website/iri.py:24-28 | a text never encodes to fewer bytes than it has characters |
| Percent.Utf8CharCodePoint | src/dseomn_website/iri.py:24-28 | the bytes of a code point decode to that code point |
| Percent.DecodeUtf8Inverse | src/dseomn_website/iri.py:24-28 | strict UTF-8 decoding gives back every encoded text |
| Percent.DecodeUtf8Encodes | src/dseomn_website/iri.py:24-28 | bytes that decode are the encoding of what they decode to |
| Percent.DecodeUtf8Step | src/dseomn_website/iri.py:24-28 | the first character decoded is the one its leading bytes encode |
| Percent.Utf8Injective | src/dseomn_website/iri.py:24-28 | different texts have different encodings |
| Percent.PercentByte | src/dseomn_website/iri.py:24-28 | one byte becomes `%` and two upper-case hex digits whose value is the byte |
| Percent.PercentBytes | src/dseomn_website/iri.py:24-28 | bytes become three characters each, all `%` or upper-case hex digits |
| Percent.QuoteChar | src/dseomn_website/iri.py:24-28 | a quoted character is spelled only with literal characters, `%` and upper-case hex digits |
| Percent.Quote | src/dseomn_website/iri.py:24-28 | `quote` keeps letters, digits, `_.-~` and the ASCII characters of `safe`, percent-encodes the UTF-8 bytes of every other character, and never shortens the text |
| Percent.QuoteLiteral | src/dseomn_website/iri.py:24-28 | a text made only of kept characters is left as it is |
| Percent.UnquotePercentByte | src/dseomn_website/iri.py:24-28 | unquoting `%XX` gives back its byte |
| Percent.UnquotePercentBytes | src/dseomn_website/iri.py:24-28 | unquoting percent-encoded bytes gives back those bytes |
| Percent.UnquoteQuoteChar | src/dseomn_website/iri.py:24-28 | unquoting one quoted character gives its UTF-8 bytes |
| Percent.UnquoteQuote | src/dseomn_website/iri.py:24-28 | when `%` is not kept, unquoting undoes quoting, down to the UTF-8 bytes |
| Percent.QuoteInjective | src/dseomn_website/iri.py:24-28 | so quoting loses nothing: different texts quote differently |
| Iri.Keys | src/dseomn_website/iri.py:16-20 | the keys of the query dict, in insertion order |
| Iri.QueryOf | src/dseomn_website/iri.py:16-20 | the query dict `mailto` builds; stated by `BuildQuery`, `QueryOfMapping` and `QueryOfValues` |
| Iri.BodyValue | src/dseomn_website/iri.py:20 | the `body` value with CRLF line ends; stated by `BodyValueIdempotent` and `BodyValueEnds` |
| Iri.MailtoUri | src/dseomn_website/iri.py:21-31 | the URI text; `Mailto` states its shape and `MailtoRoundTrip` that it reads back |
| Iri.Lookup | src/dseomn_website/iri.py:16-20 | a key has a value exactly when it is one of the dict's keys |
| Iri.Assign | src/dseomn_website/iri.py:18-20 | assigning a new key puts it last; assigning an existing key keeps its place |
| Iri.AssignLookup | src/dseomn_website/iri.py:18-20 | after `q[k] = v`, `k` has value `v` and every other key keeps its value |
| Iri.AssignDistinct | src/dseomn_website/iri.py:18-20 | keys stay distinct under assignment |
| Iri.BuildQuery | src/dseomn_website/iri.py:16-20 | the dict built step by step from the headers and then the body is the one `QueryOf` describes |
| Iri.UpdateAllFresh | src/dseomn_website/iri.py:18 | updating with headers whose names are new appends them in order |
| Iri.AssignFresh | src/dseomn_website/iri.py:18-20 | assigning a key that is not there appends the pair |
| Iri.QueryOfMapping | src/dseomn_website/iri.py:16-20 | headers given as a mapping become the query in their own order; a body replaces a `body` header in place or is appended; the keys stay distinct |
| Iri.QueryOfValues | src/dseomn_website/iri.py:17-20 | the `body` argument wins over a `body` header, and every other header keeps its value |
| Iri.LineEnd | src/dseomn_website/iri.py:20 | the first line of a text ends at the first line boundary that `str.splitlines` recognises, or at the end of the text |
| Iri.SplitLines | src/dseomn_website/iri.py:20 | `splitlines` gives lines that contain no line boundary |
| Iri.CrlfLines | src/dseomn_website/iri.py:20 | the CRLF-terminated text of a list of lines is empty exactly when there are no lines |
| Iri.LineEndBefore | src/dseomn_website/iri.py:20 | a line without breaks followed by a break ends at that break |
| Iri.SplitLinesCrlf | src/dseomn_website/iri.py:20 | lines without breaks come back out of their CRLF text |
| Iri.BodyValueIdempotent | src/dseomn_website/iri.py:20 | normalising an already normalised body changes nothing |
| Iri.BodyValueEnds | src/dseomn_website/iri.py:20 | the body value is empty exactly when the body is, and otherwise ends with CRLF, even when the last line had no end |
| Iri.CrlfLinesEnds | src/dseomn_website/iri.py:20 | a non-empty list of lines gives a text ending with CRLF |
| Iri.LineEndAll | src/dseomn_website/iri.py:20 | a text without breaks is a single line |
| Iri.SplitLinesJoin | src/dseomn_website/iri.py:20 | lines joined by `\n`, the last one non-empty, split back into the same lines |
| Iri.Fields | src/dseomn_website/iri.py:25-29 | one quoted `name=value` field per pair, in order |
| Iri.Mailto | src/dseomn_website/iri.py:9-31 | the URI is `mailto:`, the address quoted with `@` kept, and `?` followed by the query only when the query is not empty |
| Iri.UrlEncodeEmpty | src/dseomn_website/iri.py:21-31 | the query is empty (so there is no `?`) exactly when there is neither a header nor a body |
| Iri.EncodedPairs | src/dseomn_website/iri.py:25-29 | the UTF-8 bytes of each name and value, one pair per query pair |
| Iri.NoChar | src/dseomn_website/iri.py:24-29 | a character `quote` never outputs does not occur in a quoted text |
| Iri.DecodeFieldOf | src/dseomn_website/iri.py:25-29 | a quoted `name=value` field splits at its one `=` and unquotes to the bytes of the name and the value |
| Iri.DecodeFieldsOf | src/dseomn_website/iri.py:25-29 | every field of a query decodes to its pair |
| Iri.FieldsPlain | src/dseomn_website/iri.py:25-29 | no quoted field contains `?` or `&` |
| Iri.ParseAddress | src/dseomn_website/iri.py:21-31 | the URI splits at `?` into the quoted address and, when there is one, the query |
| Iri.MailtoRoundTrip | src/dseomn_website/iri.py:9-31 | reading the URI back gives the address and every query pair, in order and byte for byte: nothing is lost or reordered |
| Iri.ParseMailtoOf | src/dseomn_website/iri.py:21-31 | the same for any query |
| Iri.ParseMailtoShape | src/dseomn_website/iri.py:21-31 | reading back a URI without a `?` in its address or query gives the unquoted address and the decoded query |
| Iri.QueryReadsBack | src/dseomn_website/iri.py:25-29 | the fields of a non-empty query, split at `&` and decoded, are its pairs |
| Iri.NoJoinedChar | src/dseomn_website/iri.py:25-29 | joining texts without a character, by a separator without it, gives a text without it |
| Iri.MailtoAddressInjective | src/dseomn_website/iri.py:24 | different addresses give different URIs |
| Iri.MailtoAddressOnly | src/dseomn_website/iri_test.py:15-16 | no headers and no body: the URI is `mailto:` and the quoted address |
| Iri.MailtoOneHeader | src/dseomn_website/iri_test.py:17-22 | one header and no body: `?name=value`, both quoted |
| Iri.MailtoBodyOnly | src/dseomn_website/iri_test.py:23-28 | a body and no headers: `?body=` and the quoted CRLF body |
| Iri.BodyOnlyQuery | src/dseomn_website/iri.py:19-29 | a body alone encodes as `body=` and the quoted body value |
| Iri.BodyOnlyPairs | src/dseomn_website/iri.py:16-20 | a body alone gives the single pair `body` |
| Iri.SinglePair | src/dseomn_website/iri.py:25-29 | a single pair encodes as its quoted name, `=` and its quoted value |
| Iri.QuoteAllBody | src/dseomn_website/iri.py:25-29 | the name `body` quotes to itself |
| Iri.QuoteConcat | src/dseomn_website/iri.py:24-28 | quoting a concatenation quotes each half |
| Iri.QuoteJoin | src/dseomn_website/iri.py:24-28 | words of kept characters keep their text, and only the separators between them are encoded |
| Iri.QuoteJoinStep | src/dseomn_website/iri.py:24-28 | one step of the same |
| Iri.QuoteAscii | src/dseomn_website/iri.py:24-28 | one ASCII character that is not kept is one `%XX` |
| Iri.FixturePercentInAddress | src/dseomn_website/iri_test.py:16 | in `user%name@example.com` the `@` is kept and the `%` becomes `%25` |
| Iri.FixturePlainAddress | src/dseomn_website/iri_test.py:15 | `user@example.com` is left as it is |
| Iri.FixtureSubject | src/dseomn_website/iri_test.py:17-22 | `kumquats are a fruit` becomes `kumquats%20are%20a%20fruit`: a space is `%20`, never `+` |
| Iri.FruitWordsLiteral | src/dseomn_website/iri_test.py:19 | the words of that subject are made of kept characters |
| Iri.QuoteSpace | src/dseomn_website/iri.py:25-29 | a space quotes to `%20` |
| Iri.FixtureBody | src/dseomn_website/iri_test.py:23-28 | the body `foo\nbar` becomes `foo\r\nbar\r\n`, the last line included |
| Iri.QuoteCrlfPair | src/dseomn_website/iri.py:25-29 | CRLF quotes to `%0D%0A` |
| Iri.FixtureBodyQuoted | src/dseomn_website/iri_test.py:23-28 | that body's CRLFs are `%0D%0A` in the URI |
| Ninja.EscapeChar | src/dseomn_website/cache_buster.py:20-31 | a space, a colon or a dollar sign gets a `$` in front; every other character is kept |
| Ninja.Escape | src/dseomn_website/cache_buster.py:20-31 | escaping translates a name character by character and never shortens it |
| Ninja.EscapeAll | src/dseomn_website/cache_buster.py:79 | each name of a list is escaped, in order |
| Ninja.PrependChar | src/dseomn_website/cache_buster.py:76-81 | putting a character in front of the first path read keeps the number of paths |
| Ninja.Tokens | src/dseomn_website/cache_buster.py:76-81 | reading a space-separated list of escaped paths gives at least one path, or fails |
| Ninja.TokensEscapeChar | src/dseomn_website/cache_buster.py:20-31 | one escaped character reads back as itself |
| Ninja.PrependCharString | src/dseomn_website/cache_buster.py:20-31 | putting a character and then a string in front of a path is putting both together |
| Ninja.TokensEscape | src/dseomn_website/cache_buster.py:20-31 | an escaped name reads back as itself in front of whatever follows it |
| Ninja.TokensJoin | src/dseomn_website/cache_buster.py:79 | escaped names joined by spaces read back as exactly those names, in order |
| Ninja.TokensOne | src/dseomn_website/cache_buster.py:77 | a single escaped name reads back as itself |
| Ninja.TokensStep | src/dseomn_website/cache_buster.py:79 | an escaped name, a space and a list read back as the name followed by the list |
| Ninja.EscapeInjective | src/dseomn_website/compress.py:18-29 | different names escape differently |
| Ninja.EscapeOrdinary | src/dseomn_website/compress.py:18-29 | a name without a space, colon or dollar sign is written as it is |
| CacheBuster.OutputFilenamePath | src/dseomn_website/cache_buster.py:34-39 | the name file of an input keeps the work directory normalised |
| CacheBuster.OutputFilenamePathParts | src/dseomn_website/cache_buster.py:34-39 | the name file sits directly in the work directory and is named after the input file with `.cache-buster-output-filename` appended |
| CacheBuster.OutputFilenamePathInjective | src/dseomn_website/cache_buster.py:34-39 | inputs whose names differ get different name files |
| CacheBuster.SizeExtra | src/dseomn_website/cache_buster.py:46-54 | no image size gives an empty extra part; otherwise the extra part is made only of `-`, `x` and digits |
| CacheBuster.HashedNameStemSuffix | src/dseomn_website/cache_buster.py:59-60 | the written name keeps the base name's suffix, and its stem is the base stem, the extra part, `-` and the hash |
| CacheBuster.HashedName | src/dseomn_website/cache_buster.py:59-60 | the new file name; `HashedNameStemSuffix` states that it keeps the base name's suffix and that its stem is the base stem, the extra part and the hash |
| CacheBuster.HashedFilename | src/dseomn_website/cache_buster.py:59-60 | the text written by the hash step; `HashedFilenameParts` states that it is the path `output/assets/<name>` with the name a single part |
| CacheBuster.HashedNameWithSuffix | src/dseomn_website/cache_buster.py:59-60 | the same for a base name with a suffix |
| CacheBuster.HashedNameWithoutSuffix | src/dseomn_website/cache_buster.py:59-60 | the same for a base name without one |
| CacheBuster.NoSlashStemSuffix | src/dseomn_website/cache_buster.py:59-60 | the stem and the suffix of a name contain no `/` |
| CacheBuster.HashedFilenameParts | src/dseomn_website/cache_buster.py:59-60 | the written text is the path `output/assets/<name>`, with the name a single part |
| CacheBuster.HashedNameOfSuffixed | src/dseomn_website/cache_buster_test.py:21-53 | a base name `stem.ext` gives `stem<extra>-<hash>.ext` |
| CacheBuster.HashedNameOfPlain | src/dseomn_website/cache_buster.py:59-60 | a base name without a dot gives `name<extra>-<hash>` |
| CacheBuster.ReadBytes | src/dseomn_website/cache_buster.py:97-103 | reading a file succeeds exactly when it exists and gives its bytes |
| CacheBuster.ReadText | src/dseomn_website/cache_buster.py:69-94 | reading text gives a text whose UTF-8 encoding is the file, and succeeds whenever the file exists and is valid UTF-8 |
| CacheBuster.Filesystem.constructor | src/dseomn_website/cache_buster.py:87-88 | the file system holds the given files |
| CacheBuster.CopyOne | src/dseomn_website/cache_buster.py:89-104 | one pass of the copy loop; `CopyStep` states that it keeps the loop invariant or fails on inputs that disagree |
| CacheBuster.CopyFrom | src/dseomn_website/cache_buster.py:89-104 | the copy loop from some input on; `CopyFromInv` states that it passes exactly when the remaining inputs agree |
| CacheBuster.CopyRun | src/dseomn_website/cache_buster.py:87-105 | the whole copy step; `CopyCharacterized` and `CopyPassOutputs` state when it passes and what it writes |
| CacheBuster.Filesystem.Copy | src/dseomn_website/cache_buster.py:87-105 | the outcome and the new files are those of the copy step: the inputs in order, the first error stopping it, and the stamp written last |
| CacheBuster.Targets | src/dseomn_website/cache_buster.py:90-95 | the output path of each input, in order |
| CacheBuster.Contents | src/dseomn_website/cache_buster.py:97-103 | the contents of each input, in order |
| CacheBuster.WrittenNext | src/dseomn_website/cache_buster.py:104 | after one more input the written set has that input's output added |
| CacheBuster.InvSkip | src/dseomn_website/cache_buster.py:96-101 | an input whose output was already written with the same contents keeps the loop invariant |
| CacheBuster.InvWrite | src/dseomn_website/cache_buster.py:102-104 | an input whose output was not yet written keeps it too |
| CacheBuster.InvConflict | src/dseomn_website/cache_buster.py:96-101 | an input whose output was written with other contents breaks the agreement of the inputs |
| CacheBuster.CopyStep | src/dseomn_website/cache_buster.py:89-104 | one step either keeps the invariant or fails with "different contents" on an input set that does not agree |
| CacheBuster.CopyFromInv | src/dseomn_website/cache_buster.py:89-104 | from any point of the loop, the rest passes exactly when the inputs agree, and then every output holds its contents; otherwise the failure is "different contents" and only outputs were written |
| CacheBuster.CopyCharacterized | src/dseomn_website/cache_buster.py:87-105 | with readable inputs, the copy step succeeds exactly when no two inputs with the same output differ; on success the stamp is empty, each output holds its inputs' contents and nothing else changed; on failure the error is "different contents", the stamp is not written and only outputs were written |
| CacheBuster.CopyPassOutputs | src/dseomn_website/cache_buster.py:87-105 | when the inputs agree, the step passes, writes the empty stamp, and every output holds its inputs' contents |
| CacheBuster.CopyConflict | src/dseomn_website/cache_buster_test.py:101-118 | two inputs given the same output with different contents fail on that output |
| CacheBuster.AgreeThree | src/dseomn_website/cache_buster_test.py:121-145 | the three inputs of the multiple-copy test agree |
| CacheBuster.CopyMultiple | src/dseomn_website/cache_buster_test.py:121-145 | two inputs with the same contents and output plus a third with its own output pass, each output holding its contents, and the stamp is written |
| CacheBuster.OutputFilenames | src/dseomn_website/cache_buster.py:64-71 | the set of chosen names is read exactly when every input's name file can be read |
| CacheBuster.OutputFilenamesMembers | src/dseomn_website/cache_buster.py:65-71 | the set holds exactly the names read for the inputs |
| Ninja.DistinctCard | src/dseomn_website/cache_buster.py:65-71 | a listing that names each element of a set once has as many entries as the set |
| CacheBuster.DyndepListsEachOnce | src/dseomn_website/cache_buster.py:64-84 | the outputs line of the dyndep file reads back as the listing, which names each distinct output name once and every input's name |
| CacheBuster.DyndepText | src/dseomn_website/cache_buster.py:64-84 | the dyndep file's text; its outputs line reads back as stated by `DyndepListsEachOnce` |
| Compress.OutputPathJoin | src/dseomn_website/compress.py:32-33 | the output path is pathlib's `input.parent / (input.name + suffix)` for every normalised path and suffix |
| Compress.OutputPath | src/dseomn_website/compress.py:32-33 | `_output_path`; `OutputPathJoin`, `OutputPathParts` and `OutputPathInjective` state that it is pathlib's join, lies next to the input, and differs for different suffixes |
| Compress.OutputPathParts | src/dseomn_website/compress.py:32-33 | the output lies in the input's directory and its name is the input's name followed by the suffix |
| Compress.OutputPathInjective | src/dseomn_website/compress.py:32-33 | different suffixes give different files |
| Compress.EncodingSuffixesDistinct | src/dseomn_website/compress.py:36-121 | each encoding's suffix `.c-e-<name>` is its own, differs from `.var` and contains no slash |
| Compress.EncodingSuffix | src/dseomn_website/compress.py:36-44 | `Encoding.suffix`, `.c-e-<name>`; `EncodingSuffixesDistinct` states that it is one per encoding, never `.var`, and a single path part |
| Compress.ActualInputPath | src/dseomn_website/compress.py:124-128 | `_actual_input_path`; its property is stated by `ActualInputPathOf` |
| Compress.ActualInputPathOf | src/dseomn_website/compress.py:124-128 | without `--indirect` the file to compress is the input file; with it, the input file's text is parsed, so a printed path names that very path, and the result is always a normalised path |
| Compress.OutputSuffixesDistinct | src/dseomn_website/compress.py:137-143 | the `.var` suffix and the three encoding suffixes are pairwise different |
| Compress.DyndepOutputAt | src/dseomn_website/compress.py:137-143 | the `i`-th dyndep output is the file next to the input named with the `i`-th suffix |
| Compress.DyndepOutputs | src/dseomn_website/compress.py:137-143 | the four output paths, `.var` first; stated by `DyndepOutputAt` and `DyndepOutputsDistinct` |
| Compress.DyndepInputs | src/dseomn_website/compress.py:133-136 | the set of the input file and the file to compress; stated by `DyndepInputsDirect` and `DyndepInputsRead` |
| Compress.DyndepText | src/dseomn_website/compress.py:144-158 | the dyndep file's text; its outputs line and its inputs line read back as stated by `DyndepOutputsRead` and `DyndepInputsRead` |
| Compress.DyndepOutputsDistinct | src/dseomn_website/compress.py:137-143 | the dyndep lists four outputs, all different and all next to the file to compress |
| Compress.DyndepInputsDirect | src/dseomn_website/compress.py:124-136 | without `--indirect` the input file is listed once, since the inputs form a set |
| Compress.DyndepOutputsRead | src/dseomn_website/compress.py:144-158 | the outputs line of the dyndep file reads back as the four outputs |
| Compress.DyndepInputsRead | src/dseomn_website/compress.py:131-158 | whatever order the input set is printed in, the inputs line reads back as that listing; it names the input file and the file it points to, once each, so it has one entry or two |
| Compress.ContentType | src/dseomn_website/compress.py:163-168 | only `.atom`, `.css`, `.html` and `.txt` have a content type |
| Compress.UnencodedPart | src/dseomn_website/compress.py:169-176 | the type map's first part; stated by `VarPartsAt`, `VarPartUri` and `HtmlPagePart` |
| Compress.EncodedPart | src/dseomn_website/compress.py:180-188 | the part of one encoded copy; stated by `VarPartsAt`, `VarPartUri` and `HtmlPagePart` |
| Compress.EncodedPaths | src/dseomn_website/compress.py:177-179 | the first `n` encoders write `n` files |
| Compress.VarParts | src/dseomn_website/compress.py:169-188 | the first `n` encodings give `n + 1` type-map parts |
| Compress.VarPartsAt | src/dseomn_website/compress.py:169-188 | the `k`-th encoder writes the `k`-th encoded path, and the type map lists the unencoded file first, then that copy as part `k + 1` |
| Compress.VarText | src/dseomn_website/compress.py:161-189 | the type map fails exactly when the file's suffix has no content type, naming that suffix |
| Compress.VarTextOfContentType | src/dseomn_website/compress.py:169-189 | with a known content type the type map is the parts joined by a newline |
| Compress.CompressFile | src/dseomn_website/compress.py:161-190 | compressing a file gives the type-map text, and the encoders write their files in brotli, gzip, zstd order; nothing is written for an unknown suffix |
| Compress.EncodeAll | src/dseomn_website/compress.py:169-188 | the loop over the encodings builds every part and every encoded path |
| Compress.VarPartUri | src/dseomn_website/compress.py:177-188 | each URI in the type map decodes back to the name of its file, which lies next to the type map |
| Compress.AllLiteralConcat | src/dseomn_website/compress.py:173-185 | two texts needing no quoting concatenate into one needing none |
| Compress.EncodingLiterals | src/dseomn_website/compress.py:117-121 | the encodings are br, gzip and zstd, in that order, with suffixes `.c-e-br`, `.c-e-gzip` and `.c-e-zstd` |
| Compress.EncodingSuffixLiteral | src/dseomn_website/compress.py:185 | the encoding suffixes need no quoting in a URI |
| Compress.VarPartLiteral | src/dseomn_website/compress.py:169-188 | for a file whose name needs no quoting, each part of the type map names its file as it is |
| Compress.HtmlPage | src/dseomn_website/compress.py:163-168 | a page `<stem>.html` has type `text/html`, and needs no quoting if its stem needs none |
| Compress.HtmlSuffix | src/dseomn_website/compress.py:168 | the suffix of `<stem>.html` is `.html` |
| Compress.HtmlLiteral | src/dseomn_website/compress.py:166 | `.html` needs no quoting and has type `text/html` |
| Compress.VarTextFixture | src/dseomn_website/compress_test.py:85-102 | the test's type map: four parts, the unencoded page first, then its brotli, gzip and zstd copies, each with its content type and URI |
| Compress.HtmlPagePart | src/dseomn_website/compress_test.py:85-102 | the unencoded part and each encoded part of such a page |
| Media.IntToStringNoSeparator | src/dseomn_website/media.py:30-47 | a formatted integer contains no `x`, `q`, `.` or `/` |
| Media.SplitPair | src/dseomn_website/media.py:30-47 | two texts without a separator, joined by it, split back into those two texts |
| Media.GeometryDecodes | src/dseomn_website/media.py:30-50 | the geometry `<w>x<h>` reads back as its width and height, and contains no `q`, `.` or `/` |
| Media.JpegSuffixDecodes | src/dseomn_website/media.py:21-37 | the suffix `<w>x<h>q<q>.jpg` of a JPEG conversion gives back its size and quality |
| Media.Jpeg | src/dseomn_website/media.py:21-37 | `ImageConversion.jpeg`; `JpegSuffixDecodes` and `JpegArgsDecode` state that its suffix and its arguments give back the size and quality |
| Media.Png | src/dseomn_website/media.py:39-52 | `ImageConversion.png`; `PngSuffixDecodes` and `PngArgsDecode` state that its suffix and its arguments give back the size |
| Media.PngSuffixDecodes | src/dseomn_website/media.py:39-52 | the suffix `<w>x<h>.png` of a PNG conversion gives back its size |
| Media.JpegArgsDecode | src/dseomn_website/media.py:31-36 | the JPEG arguments are `-resize`, `<w>x<h>>`, `-quality` and the quality, and the size and quality read back from them |
| Media.PngArgsDecode | src/dseomn_website/media.py:48-51 | the PNG arguments are `-resize` and `<w>x<h>>`, and the size reads back from them |
| Media.PngNotJpeg | src/dseomn_website/media.py:30-47 | a PNG suffix is never read as a JPEG suffix |
| Media.ConversionDecodes | src/dseomn_website/media.py:21-52 | every JPEG or PNG conversion is read back from its suffix alone |
| Media.SuffixIdentifiesConversion | src/dseomn_website/media.py:21-66 | different conversions have different suffixes, so their work files never collide |
| Media.StemNoSlash | src/dseomn_website/media.py:66 | the stem of a name without `/` has no `/` |
| Media.WorkPathParts | src/dseomn_website/media.py:62-67 | the work file is a single file, named `<stem>-<suffix>`, in the work directory of the source's directory |
| Media.WorkPath | src/dseomn_website/media.py:62-67 | `ImageOutput.work_path`; its property is stated by `WorkPathParts` |
| Media.CacheBusterPath | src/dseomn_website/media.py:69-73 | `ImageOutput.cache_buster_path`; `SideFiles` states that it lies next to the work file, named after it with `.cache-buster` |
| Media.MetadataPath | src/dseomn_website/media.py:82-84 | `ImageOutput.metadata_path`; `SideFiles` states that it lies next to the work file, named after it with `.json` |
| Media.AddSuffixAppends | src/dseomn_website/media.py:71-84 | `with_suffix(suffix + ext)` succeeds and gives the file next to the path whose name is the path's name followed by `ext` |
| Media.SideFiles | src/dseomn_website/media.py:69-84 | the cache-buster and metadata files lie next to the work file, named after it with `.cache-buster` and `.json` appended, so they are different files |
| Media.UrlPath | src/dseomn_website/media.py:75-80 | the URL path is missing exactly when the cache-buster file cannot be read; otherwise it is the URL path of the path read, which fails for a path outside `output` |
| Media.Metadata | src/dseomn_website/media.py:86-91 | the metadata is missing exactly when its file cannot be read |
| Media.StrSnoc | src/dseomn_website/media.py:102 | printing a path with a last part is printing its directory followed by that part |
| Media.StrJoinAppend | src/dseomn_website/media.py:102 | appending text to a printed path is printing the path whose last part has that text appended |
| Media.CacheBusterNames | src/dseomn_website/media.py:100-106 | the cache-buster prefix, a hash and the cache-buster suffix spell the path, in the output directory, of the work file's name with `-<hash>` inserted before its suffix |
| Media.CacheBusterPrefix | src/dseomn_website/media.py:100-102 | `ImageOutputConfig.cache_buster_prefix`; `CacheBusterNames` states that with a hash and the suffix it spells the hashed path in the output directory |
| Media.CacheBusterSuffix | src/dseomn_website/media.py:104-106 | `ImageOutputConfig.cache_buster_suffix`; stated by `CacheBusterNames` |
| Media.HashedNameInDir | src/dseomn_website/media.py:100-106 | the same for any directory and name |
| Media.WorkPathFixture | src/dseomn_website/media_test.py:90-101 | a 16x16 PNG of `../private/media/<stem>.jpg` is worked in `work/media/<stem>-16x16.png` |
| Media.JpegStem | src/dseomn_website/media_test.py:92 | the stem of `<stem>.jpg` is `<stem>` |
| Media.PngSuffixFixture | src/dseomn_website/media_test.py:94 | a 16x16 PNG has suffix `16x16.png` |
| ImageMetadata.ExifToFraction | src/dseomn_website/image_metadata.py:29-35 | no fraction exactly when the value is missing or its denominator is zero; otherwise the same number in lowest terms with a positive denominator |
| ImageMetadata.MakeFraction | src/dseomn_website/image_metadata.py:34-35 | `fractions.Fraction(n, d)`; `MakeFractionReduced` states that it is reduced, has a positive denominator and the same value |
| ImageMetadata.MakeFractionReduced | src/dseomn_website/image_metadata.py:34-35 | building a fraction from a numerator and a non-zero denominator gives the same number, reduced, with a positive denominator |
| ImageMetadata.StripStartSpec | src/dseomn_website/image_metadata.py:161 | stripping the start removes exactly the leading run of white space |
| ImageMetadata.StripEndSpec | src/dseomn_website/image_metadata.py:161 | stripping the end removes exactly the trailing run of white space |
| ImageMetadata.Strip | src/dseomn_website/image_metadata.py:161 | the stripped text neither starts nor ends with white space |
| ImageMetadata.StripSpans | src/dseomn_website/image_metadata.py:161 | the stripped text is one stretch of the tag, and all that was cut off on either side is white space |
| ImageMetadata.EscapeHtmlChar | src/dseomn_website/image_metadata.py:138-161 | each character escapes to at least one character |
| ImageMetadata.EscapeHtml | src/dseomn_website/image_metadata.py:138-161 | `markupsafe.escape`; stated by `EscapeHtmlNoMarkup`, `UnescapeEscapeHtml` and `EscapeHtmlPlain` |
| ImageMetadata.EscapeHtmlNoMarkup | src/dseomn_website/image_metadata.py:138-161 | escaped text holds no `<`, `>`, `"` or `'` |
| ImageMetadata.UnescapeHtmlChar | src/dseomn_website/image_metadata.py:138-161 | unescaping an escaped character followed by any text gives back the character |
| ImageMetadata.UnescapeEscapeHtml | src/dseomn_website/image_metadata.py:138-161 | escaping loses nothing: unescaping gives the text back |
| ImageMetadata.EscapeHtmlPlain | src/dseomn_website/image_metadata.py:151 | text with nothing to escape, such as the digits of a number, is left as it is |
| ImageMetadata.SoftwareValues | src/dseomn_website/image_metadata.py:155-161 | there are no more Software values than software tags |
| ImageMetadata.KeyAt | src/dseomn_website/image_metadata.py:38-165 | the key at each position of the summary has that rank |
| ImageMetadata.Summary | src/dseomn_website/image_metadata.py:45-79 | the summary fails exactly when the timestamp does not match its pattern or the (Make, Model) pair is not in the camera table |
| ImageMetadata.CollectFocalLength | src/dseomn_website/image_metadata.py:124-143 | the parts collected one after the other are the Focal length values |
| ImageMetadata.CollectSoftware | src/dseomn_website/image_metadata.py:155-161 | the loop over the two software tags collects the Software values |
| ImageMetadata.HumanReadableHtml | src/dseomn_website/image_metadata.py:38-165 | appending entry after entry builds the summary, and stops with the summary's error |
| ImageMetadata.AppendExposure | src/dseomn_website/image_metadata.py:81-122 | appends the Resolution entry, then the Aperture and Exposure time entries that are present |
| ImageMetadata.AppendOthers | src/dseomn_website/image_metadata.py:124-163 | appends the Focal length, ISO and Software entries that are present |
| ImageMetadata.KeyNameInjective | src/dseomn_website/image_metadata.py:48-163 | different keys have different names |
| ImageMetadata.AppendOrdered | src/dseomn_website/image_metadata.py:38-165 | appending the entry of a later key to ordered, non-empty entries keeps them ordered and non-empty |
| ImageMetadata.LookupAppend | src/dseomn_website/image_metadata.py:38-165 | after appending a key's entry, a dictionary of the entries gives that entry for the key and is unchanged for the others |
| ImageMetadata.FieldFilled | src/dseomn_website/image_metadata.py:144-162 | a field that is present has at least one value |
| ImageMetadata.StageOrdered | src/dseomn_website/image_metadata.py:38-165 | the entries of the first n keys come in key order and none is empty |
| ImageMetadata.LookupStage | src/dseomn_website/image_metadata.py:38-165 | the entries of the first n keys hold each of those keys' field and nothing else |
| ImageMetadata.RankInjective | src/dseomn_website/image_metadata.py:38-165 | different keys have different positions |
| ImageMetadata.AssembleStage | src/dseomn_website/image_metadata.py:38-165 | the summary, written key by key, is the entries of all eight keys |
| ImageMetadata.SummaryLookup | src/dseomn_website/image_metadata.py:38-165 | in a successful summary, each key holds exactly its field |
| ImageMetadata.SummaryOrdered | src/dseomn_website/image_metadata_test.py:163-165 | the entries come in the order Taken, Camera, Resolution, Aperture, Exposure time, Focal length, ISO, Software, none is empty, and no key appears twice |
| ImageMetadata.TimestampFailure | src/dseomn_website/image_metadata.py:45-55 | a DateTimeOriginal that does not match `%Y:%m:%d %H:%M:%S` stops the summary with that text |
| ImageMetadata.TakenEntry | src/dseomn_website/image_metadata.py:45-60 | Taken is absent without DateTimeOriginal, otherwise the escaped ISO timestamp inside `<time>` |
| ImageMetadata.CameraUnknown | src/dseomn_website/image_metadata.py:66-77 | a (Make, Model) pair not in the table stops the summary, unless the timestamp already did |
| ImageMetadata.CameraTable | src/dseomn_website/image_metadata.py:66-77 | the camera table; `CameraUnknown` and `CameraEntry` state which pairs it knows and what Camera entry it gives |
| ImageMetadata.TakenText | src/dseomn_website/image_metadata.py:50-56 | the Taken value, `<time>` around the escaped timestamp; stated by `TakenEntry` |
| ImageMetadata.ResolutionText | src/dseomn_website/image_metadata.py:81-86 | `W × H`; stated by `ResolutionAlwaysPresent` and `ResolutionFixture` |
| ImageMetadata.ApertureText | src/dseomn_website/image_metadata.py:95-98 | `ƒ∕` and the two-digit f-number; stated by `ApertureEntry` |
| ImageMetadata.ExposureText | src/dseomn_website/image_metadata.py:112-119 | one second or more in decimal, less as a fraction; stated by `ExposureEntry` and `ExposureFixture` |
| ImageMetadata.FractionText | src/dseomn_website/image_metadata.py:130 | `str` of a fraction; stated by `FocalLengthFixture` |
| ImageMetadata.FocalLengthText | src/dseomn_website/image_metadata.py:130 | the focal length in mm; stated by `FocalLengthPartsOrder` and `FocalLengthFixture` |
| ImageMetadata.Equivalent35mmText | src/dseomn_website/image_metadata.py:136-142 | the escaped 35 mm equivalent; stated by `FocalLengthPartsOrder` |
| ImageMetadata.SoftwareText | src/dseomn_website/image_metadata.py:161 | a software tag stripped and escaped; stated by `SoftwareEntry` |
| ImageMetadata.ApertureField | src/dseomn_website/image_metadata.py:88-101 | the Aperture values; stated by `ApertureEntry` |
| ImageMetadata.ExposureField | src/dseomn_website/image_metadata.py:103-122 | the Exposure time values; stated by `ExposureEntry` |
| ImageMetadata.FocalLengthParts | src/dseomn_website/image_metadata.py:124-143 | the Focal length values; stated by `FocalLengthPartsOrder` and `CollectFocalLength` |
| ImageMetadata.IsoField | src/dseomn_website/image_metadata.py:147-153 | the ISO values; stated by `IsoEntry` |
| ImageMetadata.TakenField | src/dseomn_website/image_metadata.py:45-60 | the Taken values or the timestamp failure; stated by `TakenEntry` and `TimestampFailure` |
| ImageMetadata.CameraField | src/dseomn_website/image_metadata.py:66-79 | the Camera values or the unknown-camera failure; stated by `CameraEntry` and `CameraUnknown` |
| ImageMetadata.Field | src/dseomn_website/image_metadata.py:38-165 | the values of each key; stated by `FieldFilled` and `SummaryLookup` |
| ImageMetadata.CameraEntry | src/dseomn_website/image_metadata.py:66-79 | after success the pair is known; Camera is absent exactly when both tags are, and each known camera has its table name |
| ImageMetadata.ResolutionAlwaysPresent | src/dseomn_website/image_metadata.py:81-86 | every summary has the Resolution entry `W × H` |
| ImageMetadata.ApertureEntry | src/dseomn_website/image_metadata.py:88-101 | Aperture is present exactly when the f-number is a fraction, and is `ƒ∕` with the number to two significant digits |
| ImageMetadata.ExposureEntry | src/dseomn_website/image_metadata.py:103-122 | Exposure time is present exactly when the exposure is a fraction; below one second it is the reduced fraction `n⁄d s`, otherwise one decimal and ` s` |
| ImageMetadata.FocalLengthPartsOrder | src/dseomn_website/image_metadata.py:124-145 | the focal length values are the focal length then its 35 mm equivalent, those present, and none when neither is |
| ImageMetadata.SoftwarePartsOrder | src/dseomn_website/image_metadata.py:155-163 | the software values are the Software then the ProcessingSoftware tag, those present, and none when neither is |
| ImageMetadata.FocalLengthEntry | src/dseomn_website/image_metadata.py:124-145 | the Focal length entry, as in the summary |
| ImageMetadata.IsoEntry | src/dseomn_website/image_metadata.py:147-153 | ISO is absent without the rating, otherwise its digits |
| ImageMetadata.SoftwareEntry | src/dseomn_website/image_metadata.py:155-163 | the Software entry, as in the summary, each value stripped and escaped |
| ImageMetadata.SoftwareLookup | src/dseomn_website/image_metadata.py:155-163 | the Software entry is the collected software values, when there are any |
| ImageMetadata.NoTagsSummary | src/dseomn_website/image_metadata_test.py:49-140 | an image without EXIF tags has the resolution as its only entry |
| ImageMetadata.ResolutionFixture | src/dseomn_website/image_metadata_test.py:69-73 | a 16 by 12 image has resolution `16 × 12` |
| ImageMetadata.ExposureFixture | src/dseomn_website/image_metadata_test.py:103-107 | an exposure of 10/800 reduces to 1/80 and is written `1⁄80 s` |
| ImageMetadata.FocalLengthFixture | src/dseomn_website/image_metadata_test.py:121-125 | a focal length of 420/10 reduces to 42 and is written `42 mm` |
| FontStacks.QuoteAll | src/dseomn_website/fonts.py:13 | each family, in order, is wrapped in double quotes |
| FontStacks.FamiliesToCss | src/dseomn_website/fonts.py:10-16 | `_families_to_css`: the quoted families and the generic family joined by `, `; its value is stated by `FamiliesToCssEmpty`, `FamiliesToCssCons` and read back by `ParseFamiliesToCss` |
| FontStacks.FamiliesToCssEmpty | src/dseomn_website/fonts.py:10-16 | with no family named, the value is the generic family alone |
| FontStacks.FamiliesToCssCons | src/dseomn_website/fonts.py:10-16 | the first family comes first, quoted and followed by `", "`, then the value of the rest |
| FontStacks.FamiliesToCssTwo | src/dseomn_website/fonts.py:10-16 | two families give `"a", "b", generic` |
| FontStacks.FamiliesToCssThree | src/dseomn_website/fonts.py:10-16 | three families give `"a", "b", "c", generic` |
| FontStacks.ParseQuoted | src/dseomn_website/fonts.py:10-16 | a quoted name and its separator read back as one family |
| FontStacks.ParseFamiliesToCss | src/dseomn_website/fonts.py:10-16 | a value whose names hold no double quote reads back as exactly its families and generic family |
| FontStacks.FamiliesToCssInjective | src/dseomn_website/css_constants.py:35-41 | different stacks give different values |
| Fonts.SerifFamiliesCssValue | src/dseomn_website/fonts.py:19-24 | the serif stack is `"Noto Serif", "Noto Sans Math", "Noto Color Emoji", serif` |
| Fonts.MonospaceFamiliesCssValue | src/dseomn_website/fonts.py:25-29 | the monospace stack is `"Noto Sans Mono", "Noto Color Emoji", monospace` |
| Fonts.AllFamiliesSpec | src/dseomn_website/fonts.py:30-33 | every family of both stacks is listed once, in increasing order, and nothing else is |
| Fonts.SortedStacks | src/dseomn_website/fonts.py:31-33 | with four names in increasing order, the chained stacks sort to those four, the repeated one kept once |
| Fonts.AllFamiliesValue | src/dseomn_website/fonts.py:30-33 | all families are Noto Color Emoji, Noto Sans Math, Noto Sans Mono and Noto Serif, in that order |
| Fonts.ColorEmojiBeforeSansMath | src/dseomn_website/fonts.py:32 | `Noto Color Emoji` sorts before `Noto Sans Math` |
| Fonts.SansMathBeforeSansMono | src/dseomn_website/fonts.py:32 | `Noto Sans Math` sorts before `Noto Sans Mono` |
| Fonts.SansMonoBeforeSerif | src/dseomn_website/fonts.py:32 | `Noto Sans Mono` sorts before `Noto Serif` |
| CssConstants.EmReadsBack | src/dseomn_website/css_constants.py:15-32 | a length is the decimal digits of its number of em followed by `em`, and the digits read back as that number |
| CssConstants.Em | src/dseomn_website/css_constants.py:15-32 | a length of `n` em as CSS text; `EmReadsBack` states that it is the digits of `n`, which read back as `n`, followed by `em` |
| CssConstants.CssMin | src/dseomn_website/css_constants.py:18-29 | a CSS `min()` of two lengths; the column and float widths built with it are stated by `MainColumnContentsInlineSizeValue` and `FloatContentsInlineSizeValue` |
| CssConstants.MainColumnMaxInlineSizeValue | src/dseomn_website/css_constants.py:14-15 | the main column is at most `60em` wide |
| CssConstants.MainColumnPaddingInlineValue | src/dseomn_website/css_constants.py:16-17 | the main column's inline padding is `1em` |
| CssConstants.MainColumnContentsInlineSizeValue | src/dseomn_website/css_constants.py:18-23 | the main column's contents are `min(100vi - 2 * 1em, 60em)` wide |
| CssConstants.FloatMaxInlineSizeValue | src/dseomn_website/css_constants.py:25-26 | a float is at most `20em` wide |
| CssConstants.FloatContentsInlineSizeValue | src/dseomn_website/css_constants.py:27-29 | a float's contents are the smaller of the main column's contents and `20em` |
| CssConstants.GalleryItemMaxBlockSizeValue | src/dseomn_website/css_constants.py:31-32 | a gallery item is at most `12em` tall |
| CssConstants.FontFamiliesAgree | src/dseomn_website/css_constants.py:44-61 | the stylesheets' serif and monospace stacks and family list are the same as the font subsetting step's |
| CssConstants.AllFontFamiliesSpec | src/dseomn_website/css_constants.py:58-61 | every family of both stacks is listed once, in increasing order, and nothing else is: the four Noto families |
| Metadata.SiteTagsSorted | src/dseomn_website/metadata_test.py:16-17 | the site's tags are strictly increasing, so sorting their set leaves them as they are |
| Metadata.Url | src/dseomn_website/metadata.py:50-52 | the URL starts with the site's URL, and what follows is the page's URL path |
| Metadata.FullTitle | src/dseomn_website/metadata.py:54-56 | the full title is the page's title followed by ` — ` and the site's title |
| Metadata.PageFixture | src/dseomn_website/metadata_test.py:20-31 | `/foo/` titled Foo has URL `https://david.mandelberg.org/foo/` and full title `Foo — David Mandelberg` |
| Metadata.StringAt | src/dseomn_website/metadata.py:95-151 | reading a key succeeds exactly when it is present with a string value, gives that string, and otherwise reports the missing key or the wrong type |
| Metadata.StringOr | src/dseomn_website/metadata.py:153 | a missing key gives the default, a present one is read as by `StringAt` |
| Metadata.ErrorLoad | src/dseomn_website/metadata.py:63-70 | an error page loads exactly when its directory name is an integer that is a known HTTP status; its URL path is `/errors/<status>/` and its title the status and its phrase |
| Metadata.StatusPhrase | src/dseomn_website/metadata.py:65-68 | the phrase of a known HTTP status; `ErrorLoad` states that an unknown status fails, and `ErrorLoadFixture` that 404 is `Not Found` |
| Metadata.ErrorUrlPath | src/dseomn_website/metadata.py:67 | an error page's URL path; stated by `ErrorUrlPathReadsBack` and `ErrorUrlPathInjective` |
| Metadata.ErrorLoadFixture | src/dseomn_website/metadata_test.py:34-41 | `errors/404/index.html.jinja` loads as `/errors/404/`, titled `404 Not Found`, with status 404 |
| Metadata.ErrorUrlPathReadsBack | src/dseomn_website/metadata.py:67 | the URL path of an error page is `/errors/`, the status in decimal that reads back as the status, and `/` |
| Metadata.ErrorUrlPathInjective | src/dseomn_website/metadata.py:67 | two error pages with different statuses never share a URL path |
| Metadata.ErrorAll | src/dseomn_website/metadata.py:72-78 | a loaded list has at most one page per template |
| Metadata.ErrorAllPages | src/dseomn_website/metadata.py:72-78 | the loaded list holds exactly the pages of the templates under `errors` |
| Metadata.StandaloneLoad | src/dseomn_website/metadata.py:83-96 | a key other than title fails first with all unexpected keys; otherwise it loads exactly when the template is under `standalone` and the title is a string, and the URL path is the template's directory below `standalone` |
| Metadata.StandaloneUrlPath | src/dseomn_website/metadata_test.py:82-110 | a template in directories under `standalone` with only a title is served at those directories, and one directly under `standalone` at `/./` |
| Metadata.StandaloneDirectories | src/dseomn_website/metadata.py:94 | under `standalone`, a template's directory is the directories in between |
| Metadata.StandaloneAll | src/dseomn_website/metadata.py:98-106 | the list of standalone pages is the about page alone, and fails as it does |
| Metadata.AboutPage | src/dseomn_website/metadata_test.py:113-124 | the about page's table with only a title gives the page `/about/` |
| Metadata.StandaloneUnexpectedKey | src/dseomn_website/metadata_test.py:54-79 | a key other than title is reported even when the title is fine |
| Metadata.CheckTags | src/dseomn_website/metadata.py:117-121 | tags are accepted exactly when all are the site's and they are strictly increasing; unknown tags are reported first, all of them |
| Metadata.MakePost | src/dseomn_website/metadata.py:117-121 | a post is built exactly when its tags pass the check, and it holds the given fields |
| Metadata.DigitsLack | src/dseomn_website/metadata.py:141-148 | a separator that is not a digit does not occur in digits |
| Metadata.DateText | src/dseomn_website/metadata.py:141-148 | year, month and day with a separator; stated by `DateTextReadsBack` |
| Metadata.DatePrefix | src/dseomn_website/metadata.py:141 | `strftime("%Y-%m-%d-")`; stated by `DatePrefixReadsBack` and `DatePrefixInjective` |
| Metadata.DatePath | src/dseomn_website/metadata.py:148 | `strftime("%Y/%m/%d")`; stated by `DatePathReadsBack` |
| Metadata.DateTextReadsBack | src/dseomn_website/metadata.py:141-148 | split at its separator, the date gives back the year, month and day |
| Metadata.DatePathReadsBack | src/dseomn_website/metadata.py:148 | the date in a post's URL path, split at `/`, gives back its publication date |
| Metadata.DatePrefixReadsBack | src/dseomn_website/metadata.py:141 | the directory prefix ends in `-`, and what comes before, split at `-`, gives back the publication date |
| Metadata.DatePrefixInjective | src/dseomn_website/metadata.py:141-146 | two dates with the same prefix are the same day |
| Metadata.TagsOf | src/dseomn_website/metadata.py:154 | no `tags` key gives no tags; an array of strings gives its strings, in order |
| Metadata.StringItems | src/dseomn_website/metadata.py:154 | the items are read exactly when every item is a string, and give those strings in order |
| Metadata.Characters | src/dseomn_website/metadata.py:154 | a string as tags gives each of its characters, in order |
| Metadata.PostLoad | src/dseomn_website/metadata.py:123-155 | unexpected keys fail first with all of them; a loaded post has a date-time `published`, its directory name as id, starting with the date prefix, a URL path of the date path and the slug, and the title, uuid, author and tags of the table, the tags checked |
| Metadata.PostLoadSucceeds | src/dseomn_website/metadata.py:123-155 | a post loads exactly when the keys, the publication date, the directory name, the title, uuid, author and tags all pass |
| Metadata.PostDateMismatch | src/dseomn_website/metadata.py:139-145 | a directory name that does not start with the publication date fails with that name and prefix, whatever else the table holds |
| Metadata.UnknownTagsFirst | src/dseomn_website/metadata.py:118-119 | a tag that is not the site's is reported as unknown, before the order is checked |
| Metadata.TagsOutOfOrder | src/dseomn_website/metadata.py:120-121 | known tags out of order or repeated are rejected as not sorted and unique |
| Metadata.PostLoadOf | src/dseomn_website/metadata.py:146-155 | a table that passes every check loads as the post it describes, the slug being what follows the date prefix |
| Metadata.FixtureDateText | src/dseomn_website/metadata_test.py:211-290 | 27 June 2025 has prefix `2025-06-27-` and date path `2025/06/27` |
| Metadata.FixtureDirectory | src/dseomn_website/metadata_test.py:211-290 | the template `posts/2025-06-27-foo/index.html.jinja` has directory name `2025-06-27-foo`, the prefix and the slug `foo`, served at `/2025/06/27/foo/` |
| Metadata.PostLoadFixture | src/dseomn_website/metadata_test.py:211-290 | a uuid, the date and a title give the post `/2025/06/27/foo/` by the site's author with no tags |
| Metadata.DanceMusicTags | src/dseomn_website/metadata_test.py:211-290 | the tags `dance` and `music` pass the check |
| Metadata.PostLoadFixtureTagged | src/dseomn_website/metadata_test.py:211-290 | with an author and the tags `dance` and `music`, the post has that author and those tags |
| Metadata.FileInDirectory | src/dseomn_website/metadata.py:161-167 | a plain file name joined to a directory is a file directly in it |
| Metadata.PostWorkPathParts | src/dseomn_website/metadata.py:157-159 | a post's work directory is `<work>/posts/<id>` |
| Metadata.PostWorkPath | src/dseomn_website/metadata.py:157-159 | `Post.work_path`; stated by `PostWorkPathParts` |
| Metadata.IncludeFragmentPath | src/dseomn_website/metadata.py:161-163 | `Post.include_fragment_path`; stated by `IncludeFragmentInWorkPath` |
| Metadata.AtomFragmentPath | src/dseomn_website/metadata.py:165-167 | `Post.atom_fragment_path`; stated by `AtomFragmentInWorkPath` |
| Metadata.IncludeFragmentInWorkPath | src/dseomn_website/metadata.py:161-163 | the include fragment is `include-fragment.html` directly in the post's work directory |
| Metadata.AtomFragmentInWorkPath | src/dseomn_website/metadata.py:165-167 | the Atom fragment is `atom-fragment.xml` directly in the post's work directory |
| Metadata.ListPage | src/dseomn_website/metadata.py:172-182 | page 1 is the list itself; any other page is under `<list>page/` with the title followed by ` (page ` |
| Metadata.ListPageReadsBack | src/dseomn_website/metadata.py:180 | the number in a later page's URL path reads back as the page number |
| Metadata.ListPageInjective | src/dseomn_website/metadata.py:172-182 | different page numbers give different URL paths |
| Metadata.FeedIsNotAPage | src/dseomn_website/metadata.py:184-186 | the feed of a list is none of its pages |
| Metadata.FeedUrlPath | src/dseomn_website/metadata.py:184-186 | `PostList.feed_url_path`; `FeedIsNotAPage` states that it is none of the list's pages |
| Metadata.ListPageFixture | src/dseomn_website/metadata_test.py:300-317 | the blog's page 1 is `/` titled Blog, page 2 `/page/2/` titled `Blog (page 2)`, and its feed `/feed/` |
| Metadata.BlogTagListsSpec | src/dseomn_website/metadata.py:193-199 | there is one list per site tag, at `/tag/<tag>/` |
| Metadata.TagList | src/dseomn_website/metadata.py:194-197 | the list of one tag; `BlogTagListsSpec`, `TagPagesDistinct` and `TagsAgree` state its URL path and that lists of different tags never share a page |
| Metadata.MainAndTagPagesDistinct | src/dseomn_website/metadata.py:189-199 | pages of the main list and of a tag list never share a URL path |
| Metadata.TagPagesDistinct | src/dseomn_website/metadata.py:193-199 | pages of two lists of different tags without `/` never share a URL path |
| Metadata.TagsAgree | src/dseomn_website/metadata.py:195 | only one tag without `/` can start a path as `/tag/<tag>/` |
| Metadata.MainNav | src/dseomn_website/metadata.py:202-206 | the navigation is the blog, then the standalone pages, and fails as they do |
| SortedSets.InsertSpec | src/dseomn_website/metadata.py:120 | inserting into a strictly increasing list keeps it strictly increasing and adds exactly the new element |
| SortedSets.SortedSetSpec | src/dseomn_website/fonts.py:31-33 | `sorted(set(xs))` is strictly increasing and holds exactly the elements of `xs` |
| SortedSets.SortedUnique | src/dseomn_website/metadata.py:120 | two strictly increasing lists with the same elements are equal |
| SortedSets.SortedSetFixed | src/dseomn_website/metadata.py:120 | a list equals `sorted(set(...))` of itself exactly when it is strictly increasing |
| SortedSets.StrictlySortedDistinct | src/dseomn_website/metadata.py:120 | a strictly increasing list holds no element twice |
| SortedSets.FlattenMembers | src/dseomn_website/fonts.py:32 | the chained lists hold exactly the elements of each list |
| Strings.RemovePrefix | src/dseomn_website/metadata.py:146 | removing a prefix that is there leaves what follows it, and any other leaves the text as it is |
| Strings.SplitJoin | src/dseomn_website/metadata.py:141-148 | parts without the separator, joined by it, split back into those parts |
| Strings.NatToStringValue | src/dseomn_website/metadata.py:67-180 | the decimal digits of a number read back as that number |
| Strings.ParseIntOfIntToString | src/dseomn_website/metadata.py:65-67 | `int(str(i)) == i` for every integer |
| Strings.ZeroPad | src/dseomn_website/metadata.py:141-148 | a padded field has the number's value and is at least as wide as asked, never truncated |
| Strings.StrLessTotal | src/dseomn_website/metadata.py:120 | string order is total: of two different strings one is less |
| Strings.StrLessTransitive | src/dseomn_website/metadata.py:120 | string order is transitive |

## Left out

- Reading files, parsing TOML, and the ginjarator API (template lists, `read_text`, `read_config`). A template is a path, and a metadata table is a map that has already been parsed.
- `Error.all` and the test-only `Post.all`. The template list is a parameter of `Metadata.ErrorAll`. `Post.all` is not part of this model.
- Metadata.StringAt: in Python, a `title`, `uuid` or `author` that is not a string is stored as it is. The model rejects it with `WrongType`, because pages hold strings here.
- Metadata.TagsOf: a non-string tag is rejected with `WrongType`, and any value that is neither an array nor a string is rejected with `NotIterable`. TOML numbers, booleans and tables are one `TomlOther` value.
- Metadata.DateText: `%Y` is written as the C library prints it, so the year is not padded to four digits. The zero-padded month and day follow `%m` and `%d`. Time zones play no part in the date text.
- Metadata.StatusPhrase: the phrases are those of Python 3.13's `http.HTTPStatus`.
- `int()` on text accepts an optional sign, ASCII digits and single underscores. It does not accept surrounding white space or non-ASCII digits.
- PurePath.Parse: ginjarator's `Filesystem` path is not part of this model. It is taken to be a `pathlib.PurePosixPath`, so a leading `//` is a root of its own and `/` and `//` paths differ. If `Filesystem` collapsed `//` into `/`, `Paths.FromUrlPath` would map `///foo` to `/foo` rather than `//foo`.
- `paths.WORK` and `paths.work` are used but not defined in paths.py. They are parameters: the work directory of a post, and a function from a source directory to its work directory.
- The tests of `paths.work` in paths_test.py:10-19 are not modelled, because the function is not part of this model.
- Parsing and serialising HTML with lxml. The element tree is a datatype.
- Headings.Fragment.Article: when a level is out of range, the levels rewritten before it stay rewritten. Python raises and the caller discards the tree. The serialised HTML that Python returns is not modelled.
- Lint: lint_test.py:110-118 expects an `article` comment to be exempt from the id-prefix rule, but lint.py has no such exemption. The model follows lint.py, and `Lint.CommentArticleFixture` shows the rejection.
- Pagination.Nav: with a window of 0 pages on either side, an ellipsis can stand for a single page, e.g. `nav(4, 4, 0)` is `[1, None, 3, 4]`. This is what the code does.
- SHA-256 and base64 in `_hash`, and the JSON that gives an image's geometry. The hash text and the geometry are parameters.
- cache_buster_test.py:55-78 passes `--image` where cache_buster.py defines `--image-size-from-metadata`. It also expects a 24-character hash with no `=` padding. The hash is a parameter, so the model takes no side.
- The argparse `main` functions, and writing the stamp, dyndep and `.var` files. The copy step works on a file system held as a map; the other steps return the text or list they would write.
- CacheBuster.CopyOne: writing into the file map never fails. Python's `write_bytes` and `write_text` raise when the parent directory is missing; directories are not modelled.
- CacheBuster.ReadText: the bytes are decoded as strict UTF-8 and line endings are kept. Python's `read_text()` uses the locale's encoding and turns `\r` and `\r\n` into `\n`.
- Compress: the dyndep inputs are a Python set, so the model fixes no order for them and keeps only their membership.
- Ninja.TokensJoin: names read back only when they hold no `|`, carriage return or line feed. `_ninja_escape` leaves those characters as they are, so ninja would split a name that holds one. The model states no promise for such names.
- The compression encoders, minify.py, ImageMagick and optipng. They are external programs.
- Media: media_test.py:18-44 expects `work_suffix`, `output_suffix` and `sh_command` fields that media.py's `ImageConversion` does not have. The model follows media.py's `suffix` and `args`.
- Media.Metadata: the JSON decoder of the metadata file is a parameter.
- Reading images and EXIF with PIL, `strptime`, `markupsafe` beyond its five escapes, and the `.2g` and `.1f` number formats. These are parameters of `ImageMetadata.Summary`.
- ImageMetadata: the ISO rating is an integer, and the timestamp test at image_metadata_test.py:54-58 depends on the timestamp parameter.
- fonts_test.py's checks of `CODE_POINTS` and `FONTS` name constants that fonts.py does not define. They are not part of this model.
- output_test.py, layout.py, minify.py and the PostCSS configuration are not part of this model.
