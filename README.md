# Banner preview tool: the banner registry and the export layout, in Dafny

The preview tool keeps an ordered list of advertising banners, each a record
`{url, title, width, height}`, and exports them as one HTML page. This project
models the logic of `src/App.tsx` that decides what that list holds and how
the page lays it out:

- the title derived from a banner URL (`getTitleFromUrl`): the trimmed URL is
  split on `/`, a last piece holding a `.` is dropped, the piece now last (or
  `BANNER`) is written with spaces for `_`, in upper case (module `Titles`,
  on the string operations of module `Text`);
- reading a size out of a URL (`(\d+)x(\d+)`) or out of a meta tag's content
  (`width=(\d+),height=(\d+)`), with the leftmost, greedy first match that
  `String.prototype.match` returns (module `Dimensions`). Both expressions
  are instances of one shape, `<lead>(\d+)<sep>(\d+)`. The scan that tries
  each start position is proved equal to a definition of "the first greedy
  match" that involves no scanning;
- the effective size of a banner at export (stored size if positive, else the
  size in its URL if not 0, else 340 by 677), the "Responsive" caption for
  exactly 340 by 677, and the full-width flag from 728 pixels on. Each block
  of the page is a `Block` value, not HTML text (module `Banners`);
- the export order: tallest effective height first, equal heights by title.
  As in the source, the live `banners` array is sorted in place (module
  `ExportOrder`), by an insertion sort that takes the comparator as a
  parameter as `Array.prototype.sort` does (module `Sorting`);
- the registry itself, a class whose `banners` field is the array the React
  state holds (module `Registry`). Add, retitle, delete and frame-load each
  replace that array by a new one, leaving the old array untouched. Export
  sorts the array in place, so after an export the editor's list is in export
  order; `ExportSwapsShorterFirst` shows this for two banners.

Each handler is specified by a function on the list (`Added`, `Retitled`,
`Without`, `WithDims` with `LoadedDims`). The class methods are proved to
produce exactly that function's result.

## Model

| member | source | states |
|---|---|---|
| `Text.Trim` | src/App.tsx:53 | `trim()` gives a slice of the input. Only white space lies outside it, it neither starts nor ends with white space, and it is empty exactly when the input is all white space |
| `Text.TrimIdempotent` | src/App.tsx:65 | trimming a trimmed URL changes nothing, so the stored URL is its own trim |
| `Text.TrimUnpadded` | src/App.tsx:53 | text that neither starts nor ends with white space is its own trim |
| `Text.Split` | src/App.tsx:53 | `split('/')` gives at least one piece, and no piece holds the separator |
| `Text.JoinSplit` | src/App.tsx:53 | joining the pieces of a split with the separator gives back the string |
| `Text.SplitJoin` | src/App.tsx:53 | splitting pieces joined by a separator they do not hold gives back the pieces |
| `Text.ReplaceUnderscores` | src/App.tsx:59 | `replace(/_/g, ' ')` keeps the length, leaves no `_`, puts a space where each `_` was and keeps every other character |
| `Text.UpperAscii` | src/App.tsx:59 | `toUpperCase()` keeps the length, turns each lower-case ASCII letter into its upper-case letter (32 code points lower), leaves no lower-case ASCII letter, keeps every other character and neither adds nor removes `_` |
| `Titles.FolderName` | src/App.tsx:55-58 | the folder name is never empty. When the last piece holds no `.`, it is that piece, or `BANNER` if the piece is empty. When the last piece holds a `.`, it is the piece before, or `BANNER` if there is none or it is empty |
| `Titles.TitleFromUrl` | src/App.tsx:52-59 | the derived title is never empty and contains no `_` and no lower-case ASCII letter |
| `Titles.TitleOfFileUrl` | src/App.tsx:53-59 | a URL whose last piece is a file name (holds a `.`) is titled after the piece before it, with `_` made a space, in upper case |
| `Titles.TitleOfFolderUrl` | src/App.tsx:53-59 | a URL ending in a folder name (no `.`, not empty) is titled after that folder |
| `Titles.EmptyFolderTitle` | src/App.tsx:55-58 | a URL ending in `/`, or one whose file name follows `//`, is titled `BANNER` |
| `Titles.PlaceholderTitle` | src/App.tsx:55-58 | a blank URL, or a bare file name with no `/`, is titled `BANNER` |
| `Titles.ExampleTitle` | src/App.tsx:52-59 | `https://cdn.example.com/my_banner_ad/index.html` is titled `MY BANNER AD` |
| `Dimensions.Decimal` | src/App.tsx:506-507 | `parseInt(d, 10)` of a run of digits is below 10 to the power of its length, and at least 10 to the power of its length less one when it does not start with `0` |
| `Dimensions.DigitRun` | src/App.tsx:504 | the digit run starting at a position is maximal: all its characters are digits, and it ends at the end of the text or at a non-digit |
| `Dimensions.FindFrom` | src/App.tsx:502-522 | the scan returns nothing exactly when no match can start at or after the position. Otherwise it returns the size captured at the first start position where a match succeeds |
| `Dimensions.MatchAtOccurs` | src/App.tsx:504 | a match found at a position is a match of the regular expression, and it captures the size the scan reports |
| `Dimensions.OccursAtMatch` | src/App.tsx:504 | every match of the regular expression starting at a position is found there. Its first group is the whole digit run, and its second group is no longer than the digit run after the separator |
| `Dimensions.FilenameDims` | src/App.tsx:513-522 | `getDimensionsFromFilename` returns `null` exactly when `(\d+)x(\d+)` matches nowhere in the URL |
| `Dimensions.MetaDims` | src/App.tsx:502-511 | `getDimensionsFromMeta` returns `null` exactly when `width=(\d+),height=(\d+)` matches nowhere in the content |
| `Dimensions.FindNoneIff` | src/App.tsx:502-522 | both functions return `null` exactly when the regular expression matches nowhere in the text |
| `Dimensions.FindIsFirstGreedyMatch` | src/App.tsx:502-522 | when a size is returned, it is what the leftmost match captures, with both `\d+` groups as long as possible |
| `Dimensions.FindAt` | src/App.tsx:502-522 | when a match succeeds at a position and none succeeds before it, that match's size is the result |
| `Dimensions.FilenameDimsNoneIff` | src/App.tsx:513-522 | `getDimensionsFromFilename` returns `null` exactly when no digit is followed by a lower-case `x` and a digit |
| `Dimensions.FilenameExample` | src/App.tsx:513-522 | `banner_300x600` gives 300 by 600 |
| `Dimensions.MetaExample` | src/App.tsx:502-511 | `width=300,height=250` gives 300 by 250 |
| `Dimensions.DigitRunOfDigits` | src/App.tsx:504 | a run of digits lies within the greedy digit run from its start, and is all of it when a non-digit or the end follows |
| `Dimensions.NoXNoFilenameDims` | src/App.tsx:513-522 | a URL without a lower-case `x` gives no size |
| `Dimensions.UpperCaseXExample` | src/App.tsx:514 | `300X600` gives no size (only a lower-case `x` separates) |
| `Banners.OrDefault` | src/App.tsx:95-96 | a number falling back to a default, as JavaScript's "or" does: the number when it is present and not 0 (0 is falsy), else the fallback |
| `Banners.EffectiveWidth` | src/App.tsx:95 | the rendered width is always positive. It is the stored width when that is positive. With nothing stored it is the URL's width when the URL names a size whose width is not 0, else 340 |
| `Banners.EffectiveHeight` | src/App.tsx:83-96 | the sort key and the rendered height are always positive. They are the stored height when that is positive. With nothing stored they are the URL's height when the URL names a size whose height is not 0, else 677 |
| `Banners.RenderBlock` | src/App.tsx:93-112 | a block carries the banner's title and URL at the effective size. It is captioned "Responsive" exactly when the size is 340 by 677, and with its width and height otherwise. It spans the row exactly when the width is at least 728 |
| `Banners.RenderAll` | src/App.tsx:93-113 | one block per banner, in the list's order |
| `Banners.UnsizedIsResponsive` | src/App.tsx:95-102 | a banner with no stored size and no size in its URL is captioned "Responsive" and does not span the row |
| `Banners.UrlSizeIsRendered` | src/App.tsx:94-96 | a banner with no stored size is rendered at the non-zero size in its URL |
| `Banners.ExampleBlock` | src/App.tsx:93-112 | `banner_300x600` with no stored size renders at 300 by 600, captioned with its size, not full width |
| `ExportOrder.TitleCompare` | src/App.tsx:89 | the title comparison is -1, 0 or 1, and 0 exactly for equal titles |
| `ExportOrder.TitleCompareAntisymmetric` | src/App.tsx:89 | swapping the titles negates the comparison |
| `ExportOrder.TitleCompareTransitive` | src/App.tsx:89 | the title order is transitive |
| `ExportOrder.Compare` | src/App.tsx:79-91 | the comparator is negative exactly when `a` is taller, or as tall with a title that comes first. It is 0 exactly for equal heights and equal titles |
| `ExportOrder.Before` | src/App.tsx:79-91 | `a` may stand before `b` exactly when it is taller, or as tall with a title that does not come after |
| `ExportOrder.BeforeTotal` | src/App.tsx:79-91 | for any two banners the comparator lets one of them stand first |
| `ExportOrder.BeforeTransitive` | src/App.tsx:79-91 | the comparator's order is transitive |
| `ExportOrder.BeforeIsTotalPreorder` | src/App.tsx:79-91 | the comparator orders banners as a total preorder, which is what `sort` needs to give a sorted result |
| `ExportOrder.ExportOrderedMeaning` | src/App.tsx:83-90 | in an export-ordered list effective heights never increase, and equal heights stand in title order |
| `ExportOrder.SortForExport` | src/App.tsx:79-91 | sorting in place leaves the same banners (a permutation) in export order |
| `Sorting.ChainedIsSorted` | src/App.tsx:79 | for a transitive comparator, a list whose neighbours are in order is in order throughout |
| `Sorting.InsertStart` | src/App.tsx:79 | inserting the next element starts from an ordered prefix and the element on its own |
| `Sorting.InsertStep` | src/App.tsx:79 | swapping the inserted element with a left neighbour that must follow it keeps both ordered runs ordered |
| `Sorting.InsertDone` | src/App.tsx:79 | once the inserted element stands at the front or after an element allowed before it, the whole prefix is in order |
| `Sorting.SortedPairSwaps` | src/App.tsx:79 | two elements out of comparator order come out of any sort swapped |
| `Sorting.SwapKeepsMultiset` | src/App.tsx:79 | swapping two elements keeps the same elements |
| `Sorting.InsertLeft` | src/App.tsx:79 | moving one element left past those that must follow it extends the ordered prefix and keeps the same elements |
| `Sorting.InsertionSort` | src/App.tsx:79 | `sort` with a comparator that is a total preorder leaves the same elements, in comparator order, in the same array |
| `Registry.Added` | src/App.tsx:50-73 | adding a blank URL leaves the list as it is. Otherwise one record is appended with the trimmed URL, no size and the derived title, and the records before it are untouched |
| `Registry.AddedRecord` | src/App.tsx:51-68 | the added record's URL is not empty and is its own trim. Its title has no `_`. When its URL names no size it is exported as "Responsive" |
| `Registry.Retitled` | src/App.tsx:485-494 | retitling keeps the length and changes only the title of the record at the index |
| `Registry.Without` | src/App.tsx:580-582 | the filter drops one record when the index is in range and none otherwise |
| `Registry.WithoutIsRemoval` | src/App.tsx:580-582 | deleting removes exactly the record at the index and keeps the rest in order; an index outside the list leaves it unchanged |
| `Registry.ContentDims` | src/App.tsx:538-540 | a missing or empty `content` attribute gives no size |
| `Registry.FirstSome` | src/App.tsx:537-543 | the scan for the first tag that gives a size gives nothing exactly when no tag does |
| `Registry.FirstSomeFirst` | src/App.tsx:537-543 | otherwise it gives what a tag gives before which no tag gives anything |
| `Registry.FirstMetaMatch` | src/App.tsx:537-543 | the meta lookup gives nothing exactly when no tag's content gives a size |
| `Registry.FirstMetaMatchFirst` | src/App.tsx:537-543 | otherwise it gives the size of a tag before which no tag gives one |
| `Registry.FirstMetaDims` | src/App.tsx:536-544 | the loop over the meta tags with its `break` returns that first size |
| `Registry.LoadedDims` | src/App.tsx:527-553 | the loaded size is the URL's size if any, else the first meta size, else 340 by 677 |
| `Registry.WithDims` | src/App.tsx:555-563 | storing a loaded size changes only width and height of the record at the index |
| `Registry.LoadedWithoutSizeIsResponsive` | src/App.tsx:550-563 | a banner whose URL and meta tags name no size is stored at 340 by 677 and exported as "Responsive" |
| `Registry.LoadedSizeIsRendered` | src/App.tsx:555-563 | a stored non-zero loaded size is the size the banner is exported at |
| `Registry.ExportedBlocksOrdered` | src/App.tsx:79-113 | the exported blocks come tallest first, with equal heights in title order, because the sort key is the rendered height |
| `Registry.ExportSwapsShorterFirst` | src/App.tsx:79 | a shorter banner added before a taller one stands after it once sorted, so the export reorders the list |
| `Registry.NewArray` | src/App.tsx:487 | `[...prevBanners]` and the array React stores: a new array holding the given list (the same copy recurs at line 556) |
| `Registry.BannerRegistry.constructor` | src/App.tsx:41 | the registry starts empty |
| `Registry.BannerRegistry.Add` | src/App.tsx:50-74 | the new list is `Added` of the old one and the input. A blank input keeps the same array; otherwise a new array replaces it |
| `Registry.BannerRegistry.Retitle` | src/App.tsx:485-494 | a new array holding `Retitled` of the old list |
| `Registry.BannerRegistry.Delete` | src/App.tsx:580-582 | a new array holding `Without` of the old list |
| `Registry.BannerRegistry.LoadDimensions` | src/App.tsx:524-578 | with no frame element nothing changes. Otherwise a new array holds the old list with the record at the index given `LoadedDims` of its URL and the meta tags |
| `Registry.BannerRegistry.Export` | src/App.tsx:77-113 | the live array is sorted in place into a permutation in export order. The page carries the page title and one block per banner in that order |

## Left out

- The React and MUI rendering, the theme and dark-mode toggle, the snackbar
  and the editor's own size line (src/App.tsx:38-48, 584-755): user interface.
- The download in `handleSave` (Blob, object URL, anchor click, revoke) and its
  `try`/`catch` (src/App.tsx:467-483): browser I/O.
- The fixed HTML and CSS text of the exported page and its embedded script
  (theme flag in local storage, dragging, clipboard, the `trackEvent` message
  listener; src/App.tsx:115-459). The page is modelled as its title and its
  blocks; the caption's mis-encoded multiplication sign is kept abstract
  (`Size(width, height)`).
- No HTML escaping is performed on titles or URLs, and none is modelled.
- Reading the frame's document: the meta tags' `content` attributes are a
  parameter. A cross-origin frame, or one without a document, is the empty
  sequence, since the `catch` at src/App.tsx:545-547 then leaves no meta size.
- `Registry.BannerRegistry.LoadDimensions` and `Registry.BannerRegistry.Retitle`
  require an index inside the list, as every caller passes the index of a
  rendered row. Out of range, JavaScript would write a new partial record
  (or, in the load handler, reach the outer `catch` at src/App.tsx:564-575);
  that path is not modelled.
- `Registry.BannerRegistry.LoadDimensions`: the handler reads the URL from
  the list captured at render time and writes into the latest list. The
  model has one list, so a load that races with another edit is not modelled.
- `ExportOrder.TitleCompare`: `localeCompare` depends on the locale; it is
  modelled as comparison of code points from the left.
- `ExportOrder.SortForExport`: the source's sort is stable. The contract does
  not state stability, so two banners with equal height and equal title may
  come out in either order.
- `Sorting.InsertionSort`: the same gap. The sort is proved sorted and a
  permutation; stability is not stated.
- `Registry.BannerRegistry.Export`: the same gap, through `SortForExport`.
- `Text.UpperAscii`: `toUpperCase` is modelled for ASCII letters only. Other
  characters are kept as they are, whereas JavaScript also upper-cases
  non-ASCII letters, and can lengthen some (`ß` becomes `SS`).
- Clearing the input field after an add (`setUrl('')`, src/App.tsx:72) is
  user-interface state and is not modelled.
- `parseInt` on very long digit runs loses precision in floating point; the
  model uses unbounded `nat`.
- `lambda/list-s3-folders.js` (an AWS listing call) and `src/main.tsx` (React
  start-up) are not part of this model.
