# AMI association report, modelled in Dafny

`ami.py` builds an inventory of the machine images (AMIs) in use in an EC2
account. It runs in four steps:

1. `getAllInstanceAmis` walks the paginated `describe_instances` listing. It
   collects the image id of every instance, each once, in the order they are
   first seen.
2. For each image, `getAmiInfo` calls `describe_images` for four descriptive
   fields. It then calls `getAssociatedInstances`, which walks the listing
   again, filtered on that image id, to collect the ids of the instances
   launched from it.
3. `createDict` builds one dictionary with a record per image, in scan order.
4. `getAmis` runs the previous steps and prints the dictionary as JSON.

The model replaces the EC2 client with an `Ec2` value holding the answers the
API gives:

- each paginator is a sequence of pages;
- each page either arrives, carrying the strings its JMESPath projection
  picked out, or raises;
- each `describe_images` reply is its four projected lists of strings.

The loops of `AmiAssociation` are imperative methods over these inputs. Each
is proved equal to a specification function, and the properties of the
report are proved about those functions.

Files:

- `py_str.dfy` (`PyStr`): Python's `','.join`, `str.split(',')` and
  `''.join`, with their round trips.
- `seqs.dfy` (`Seqs`): duplicate-freedom, first-seen deduplication and the
  first position of an element.
- `pages.dfy` (`Pages`): pages, exceptions, the re-raised error messages, and
  `Collect`. `Collect` yields all pages, or the first exception raised.
- `py_dict.dfy` (`PyDict`): an insertion-ordered Python `dict`.
- `ami_spec.dfy` (`AmiSpec`): what each method returns, and the lemmas about it.
- `ami.dfy` (`Ami`): the class `AmiAssociation` and its methods.

Where the intended behaviour and the code differ, the model follows the code:

- An empty listing page might be expected to add nothing to the scan. In
  the code, `','.join([])` is `''` and `''.split(',')` is `['']`, so
  `getAllInstanceAmis` reports the empty string `""` as an image id whenever
  some page lists no instance. `ScanEmptyPage` and `ScanWellFormedContents`
  state this. The scan therefore does not depend on how the listing is cut
  into pages only when no page is empty (`ScanPartitionInvariant`).
  `getAssociatedInstances` does not have this quirk
  (`FindPartitionInvariant`).
- The sentinel `"null"` is meant to mark a missing value. In the code, a
  field is also `"null"` when its values really concatenate to the
  text `null`. The contract of `JoinOrNull` states both cases.
- A failure of `describe_images` in `getAmiInfo` is not caught and re-raised
  with a prefix. It reaches the caller as raised (`Error.Uncaught`).

## Model

| member | source | states |
|---|---|---|
| `PyStr.Join` | ami.py:34 | joining no parts gives the empty string |
| `PyStr.Split` | ami.py:35 | splitting always yields at least one piece, and no piece contains a comma |
| `PyStr.JoinSplit` | ami.py:34-35 | joining the pieces of a split string with commas gives the string back |
| `PyStr.SplitJoin` | ami.py:34-35 | for a non-empty list of comma-free ids, splitting their comma-join gives the ids back |
| `PyStr.SplitNoComma` | ami.py:67-68 | a comma-free string splits into itself alone |
| `PyStr.JoinShape` | ami.py:64-68 | for well-formed ids, the joined string contains a comma iff there are at least two ids, and is empty iff there are none |
| `PyStr.ConcatEmpty` | ami.py:94 | `''.join(parts)` is empty iff every part is empty (so also when there are no parts) |
| `Seqs.Dedup` | ami.py:36-38 | the append-if-absent fold yields a duplicate-free list with exactly the elements of its input |
| `Seqs.FirstIndex` | ami.py:37 | the position returned holds the element, and the element does not occur before it |
| `Seqs.DedupFirstSeenOrder` | ami.py:36-38 | the deduplicated list is ordered by each element's first occurrence in the input |
| `Seqs.DedupOfNoDup` | ami.py:108-109 | deduplicating a duplicate-free list leaves it unchanged |
| `Pages.CollectOutcome` | ami.py:31-46 | a listing succeeds iff every page arrives, and then yields every page's values in order; otherwise it fails with the exception of the first page that raised |
| `Pages.CollectStopsAt` | ami.py:43-46 | once all pages before page i have arrived, a raise at page i is the outcome of the whole listing |
| `Pages.MessageIdentifiesFailure` | ami.py:43-46 | two re-raised errors with the same message agree on the method that caught them, the exception kind and the exception's text |
| `PyDict.Dict.Set` | ami.py:53 | assigning a key keeps the dictionary valid, sets the key's value, keeps an existing key's place and appends a new key last |
| `PyDict.Empty` | ami.py:50 | the empty dictionary is valid and has no keys and no entries |
| `PyDict.DictSize` | ami.py:49-54 | a valid dictionary has as many entries as keys in its key order |
| `AmiSpec.InScannedPieces` | ami.py:34-38 | a string is a scanned piece iff it comes from splitting some page's comma-joined ids |
| `AmiSpec.ScanAmisContents` | ami.py:28-46 | the scan fails iff some page raises, and then with the first such exception, prefixed for `getAllInstanceAmis`; on success its list is duplicate-free and holds exactly the pieces of every page |
| `AmiSpec.ScanAmisOrder` | ami.py:36-38 | an image id that first turns up earlier among the pieces comes earlier in the scan's list |
| `AmiSpec.ScannedPiecesWellFormed` | ami.py:34-35 | when every page holds at least one well-formed id, the pieces are the pages' ids in order |
| `AmiSpec.ScanEmptyPage` | ami.py:34-35 | a page with no instances puts the empty string into the scan's list |
| `AmiSpec.ScanWellFormedContents` | ami.py:33-38 | on well-formed ids the scan lists exactly the ids of all pages, plus `""` iff some page is empty |
| `AmiSpec.ScanPartitionInvariant` | ami.py:33-38 | on well-formed ids and with no empty page, two listings with the same ids in the same order scan alike however they are paged |
| `AmiSpec.PageInstancesSplitUnlessEmpty` | ami.py:63-68 | the three-way branch equals splitting the joined ids, except that an empty joined string adds nothing |
| `AmiSpec.PageInstancesWellFormed` | ami.py:63-68 | on well-formed ids a page adds exactly its own ids, so an empty page adds nothing |
| `AmiSpec.AssociatedIdsWellFormed` | ami.py:62-68 | on well-formed ids the instance list is every id of every page in page order, with repeats kept |
| `AmiSpec.FindPartitionInvariant` | ami.py:62-68 | on well-formed ids the instance list does not depend on how the listing is paged |
| `AmiSpec.FindInstancesOutcome` | ami.py:57-76 | the finder fails iff some page raises, and then with the first such exception, prefixed for `getAssociatedInstances`; a listing of empty pages yields the empty list, not a failure |
| `AmiSpec.JoinOrNull` | ami.py:94-101 | a field is the concatenated values unless it is `"null"`, and it is `"null"` iff every value is empty (no value at all included) or the values concatenate to `null` |
| `AmiSpec.AmiInfoOutcome` | ami.py:87-104 | a `describe_images` failure is the outcome before any instance is listed; otherwise the record fails iff the finder does, with its error; on success it holds the finder's instances, and each field is the concatenated values whenever some value is non-empty and `"null"` whenever none is |
| `AmiSpec.NoImageAllNull` | ami.py:89-103 | when no image matches, all four descriptive fields are `"null"` and the record still holds the instances the finder returned |
| `AmiSpec.ReportOfFailure` | ami.py:49-54 | `createDict` fails iff `getAmiInfo` fails for some image, and then with the error of the first such image |
| `AmiSpec.ReportOfStopsAt` | ami.py:51-53 | the first image whose record fails ends `createDict` with that image's error |
| `AmiSpec.ReportOfShape` | ami.py:49-54 | on success the dictionary is valid, its keys are the images in first-seen order, and each key maps to that image's record |
| `AmiSpec.ReportOfDistinct` | ami.py:49-54 | for duplicate-free images the keys are the images in input order, with exactly one entry per image |
| `AmiSpec.GatherShape` | ami.py:107-109 | the report has exactly one entry per scanned image, keyed in scan order, each holding that image's record |
| `Ami.AmiAssociation.constructor` | ami.py:15-25 | the object talks to the EC2 client it is given |
| `Ami.AmiAssociation.GetAllInstanceAmis` | ami.py:28-46 | the loop over pages and pieces returns the scan's outcome, and a successful list is duplicate-free |
| `Ami.AmiAssociation.CreateDict` | ami.py:49-54 | the loop over images returns the report fold over `getAmiInfo`, stopping at the first failure |
| `Ami.AmiAssociation.GetAssociatedInstances` | ami.py:57-76 | the loop over pages returns the finder's outcome for the image's filtered listing |
| `Ami.AmiAssociation.GetAmiInfo` | ami.py:87-104 | `describe_images` first and the finder second give the image's record, or the first failure |
| `Ami.AmiAssociation.GatherReport` | ami.py:107-109 | the scan followed by `createDict` returns the report; on success its keys are the scanned images in order, one entry each |

## Left out

- Reading credentials and the region from the environment, and building the
  boto3 client (ami.py:15-25). The client is the `Ec2` value given to the
  constructor.
- The boto3 paginator, `describe_images` and JMESPath evaluation. They are
  foreign library calls, and their projected results are inputs. A listing
  filtered on an image id is an input of its own. It is not derived from the
  unfiltered listing.
- The page size of 50 and the `token` / `next_token` bookkeeping
  (ami.py:30, 39-41, 61, 69-71). The token is read only when `paginate` is
  first called, so it never affects a result. The number of instances per
  page is simply whatever the page carries.
- `dictToJson` and the printing in `getAmis` (ami.py:79-84, 110-111). These
  are JSON serialisation, a swallowed serialisation error and standard
  output. `GatherReport` stops at the dictionary that would be serialised.
- An exception raised while a page is processed, rather than fetched, is not
  modelled on its own. An example is a JMESPath result that is not a list of
  strings. Such a page is given as a page that raises, which ends the loop
  the same way.
- Python's dictionary is modelled by its key order and its mapping. Its hash
  table and identity are not.
