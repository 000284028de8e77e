# Portfolio page logic in Dafny

This project models the behaviour behind the single-page portfolio site. All
of it lives in `PortfolioPage` (`src/App.tsx`) and comes in four pieces:

- **Tag vocabulary** (`Catalog.AllTags`). This is the list of filter chips:
  - `"All"` comes first;
  - then every tag of every project, once each, in the order a JavaScript
    `Set` seeded with `"All"` keeps them.
- **Project gallery** (`Catalog.VisibleProjects`). This is the list of
  project cards on display:
  - a copy of the project list;
  - filtered by the selected tag unless that tag is `"All"`;
  - sorted in place by name when the sort selector reads `"name"`.
- **Contact form** (`Contact.ContactForm`). This is the draft and its
  submission status. `Submit` works as follows:
  - it trims the four fields;
  - it refuses a payload without an email or a message;
  - when a form endpoint is configured, it shows "Sending…" and then either
    "sent", with the draft cleared, or the delivery error, with the draft kept;
  - otherwise it builds the `mailto:` link. The link follows section 2 of
    RFC 6068: an address, then `?subject=` and `&body=` header fields.
- **Timeline** (`Timeline.EducationItems`, `Timeline.ExperienceItems`). These
  are the two columns of the "Education & Experience" section. Each picks the
  entries of its type and keeps timeline order.

## Layout of the files

| file | module | contents |
|---|---|---|
| `wrappers.dfy` | `Wrappers` | `Option` |
| `seqs.dfy` | `Seqs` | `Filter`, which models `Array.prototype.filter`, with its exact-subsequence characterisation. `Dedup`, the contents of an insertion-ordered `Set` after repeated `add`, with its first-seen-order lemmas. |
| `text.dfy` | `Text` | `Trim`, which models `String.prototype.trim` over a whitespace predicate, and `SplitAt` |
| `catalog.dfy` | `Catalog` | project records, the vocabulary loop, the tag filter, the stable sort by name (specification, lemmas, in-place array sort) and the displayed list |
| `contact.dfy` | `Contact` | the draft, the status machine, validation, the mailto link and its parser, and the `ContactForm` class |
| `timeline.dfy` | `Timeline` | timeline entries and the two columns |

### How things outside the code are represented

- **`localeCompare`** becomes a collation key `key: string -> real`. Here
  `a.localeCompare(b) <= 0` holds exactly when `key(a) <= key(b)`. This loses
  nothing: every total preorder on strings has such a key, because the strings
  form a countable set.
- **`Array.prototype.sort`** becomes a stable insertion sort. Stability is
  required of it since ES2019. `Catalog.StableSortUnique` proves that any
  stable sort with the same comparator gives the same result.
- **`encodeURIComponent`** becomes a parameter `encode`.
- **The whitespace set of `trim`** becomes a parameter `isSpace`.
- **The network request** becomes its outcome, a `FetchOutcome` of `Ok`,
  `NotOk` or `Exception`.
- **The `FORMSPREE_ENDPOINT` test** becomes the flag `endpointConfigured`.
- **`PROFILE.email`** becomes the parameter `ownerEmail`.
- **`PROJECTS` and `TIMELINE`** become parameters. `PROJECTS` is the array
  `source` of `VisibleProjects` and the sequence `projects` of `AllTags`, and
  `TIMELINE` is the sequence `timeline`.
- **The assignment to `window.location.href`** becomes a value: `Submit`
  returns the link.
- **Status messages** are the datatype `Notice`. `NoticeText` gives their exact
  wording, and `Submit`'s contract states the text shown in each outcome.

`ContactForm` has two ghost fields:
- `shown` records every status the form has displayed, so the contract can
  say that the status passed through "Sending…";
- `posted` records the payloads sent to the endpoint, so the contract can say
  when a request is made and with which body.

## Model

| member | source | states |
|---|---|---|
| Catalog.FlatTags | src/App.tsx:363 | Definition: every project's tags concatenated in project order, as the nested `forEach` visits them. `FlatTagsMembership` states membership in both directions. |
| Catalog.Vocabulary | src/App.tsx:361-364 | Definition: the distinct entries of "All" followed by the concatenated tags, in first-seen order. `VocabularyProperties` states its head, that it has no duplicates, and its exact membership. `VocabularyFirstSeenOrder` states its order. The loop `AllTags` returns it. |
| Catalog.AllTags | src/App.tsx:361-365 | The vocabulary loop returns `Vocabulary(projects)`. It is non-empty, starts with "All" and has no duplicates. A tag is in it exactly when it is "All" or some project carries it (both directions). |
| Catalog.AddEach | src/App.tsx:363 | Adding the tags of one project to an insertion-ordered set of the distinct elements of `seen` gives the distinct elements of `seen + ts` in first-seen order. |
| Catalog.FlatTagsMembership | src/App.tsx:363 | A tag occurs among the concatenated tags exactly when some project carries it. |
| Catalog.VocabularyProperties | src/App.tsx:361-365 | The vocabulary's head is "All". It has no duplicates. Its members are exactly "All" and the projects' tags. |
| Catalog.VocabularyFirstSeenOrder | src/App.tsx:362-364 | Each vocabulary entry occurs in "All"-then-tags. Entries appear in strictly increasing order of first occurrence there, as a `Set` keeps them. |
| Seqs.Dedup | src/App.tsx:362-364 | Definition: a `Set` filled in insertion order and read back by `Array.from`. Its properties are the four lemmas below. |
| Seqs.DedupMembership | src/App.tsx:362-364 | Set insertion keeps every element and adds none. |
| Seqs.DedupNoDuplicates | src/App.tsx:362-364 | Set insertion never holds an element twice. |
| Seqs.DedupHead | src/App.tsx:362 | The seed element "All" stays first. |
| Seqs.DedupFirstSeenOrder | src/App.tsx:362-364 | Distinct elements are listed in order of first occurrence. |
| Catalog.SelectByTag | src/App.tsx:368-372 | Definition: the source itself for "All", otherwise `filter` by `tags.includes`. `SelectByTagExact` states its properties. |
| Seqs.Filter | src/App.tsx:371 | Order-preserving `Array.prototype.filter`, also used for both timeline columns (742-743). Its contract: never longer than the source. `FilterIsSelection` and `FilterMembership` state which elements it keeps and in which order. |
| Catalog.SelectByTagExact | src/App.tsx:368-372 | With "All" the list equals the source, element for element. Otherwise it is the order-preserving subsequence at exactly the positions whose project has the tag: every kept project has it and no dropped one does. Membership holds both ways. |
| Seqs.FilterIsSelection | src/App.tsx:371 | `filter` gives the subsequence at strictly increasing positions, and those positions are exactly where the predicate holds. |
| Seqs.FilterMembership | src/App.tsx:371 | An element survives `filter` exactly when it is in the source and satisfies the predicate. |
| Catalog.VisibleProjects | src/App.tsx:367-380 | Copying and filtering into arrays, then sorting in place in "name" mode, returns `CatalogView(...)`. The result has the multiset and members of the tag selection. In any mode other than "name" it is the selection itself, not reordered. In "name" mode it is sorted by the collation. The source array is copied before the in-place sort, and its contents are left unchanged. |
| Catalog.CatalogView | src/App.tsx:367-380 | Definition: the value of the `projects` memo. `VisibleProjects` computes it by copying, filtering and sorting in place, and states its properties. `NameViewProperties` covers "name" mode. |
| Catalog.InsertLast | src/App.tsx:376 | Definition: one step of a stable insertion sort. `x` goes after every project whose name does not collate after its own. `InsertLastSplit` states where it lands. The array pass `InsertIntoPrefix` computes it, through `InsertLastShifted`. |
| Catalog.SortByName | src/App.tsx:376 | Definition: the insertion sort by collation key that stands for `list.sort` with `localeCompare`. `SortByNamePermutation`, `SortByNameSorted` and `SortByNameStable` state that it is a permutation, ascending and stable. `StableSortUnique` states that every stable sort gives the same result. |
| Catalog.SortInPlace | src/App.tsx:376 | The in-place array sort leaves `a[..] == SortByName(old(a[..]))`. |
| Catalog.InsertIntoPrefix | src/App.tsx:376 | One insertion pass leaves `a[..i+1]` equal to `InsertLast` of the old prefix and `a[i]`, and leaves the rest of the array unchanged. |
| Catalog.InsertLastShifted | src/App.tsx:376 | The array shape after one pass is `t[..j]`, then `x`, then `t[j..]` shifted right. At the insertion point this is `InsertLast(t, x)`. |
| Catalog.InsertLastSplit | src/App.tsx:376 | Insertion places `x` directly before a suffix whose names all collate strictly after it. |
| Catalog.SortByNamePermutation | src/App.tsx:376 | The sort is a permutation: the multiset is unchanged. |
| Catalog.SortByNameSorted | src/App.tsx:376 | The result is ascending by the collation key. |
| Catalog.SortByNameStable | src/App.tsx:376 | Stability: for every name `n`, the projects whose names collate equal to `n` keep their relative order. |
| Catalog.StableSortUnique | src/App.tsx:376 | Every sorted sequence with the same name classes as `s` equals `SortByName(s)`. So any stable sort with this comparator gives this result. |
| Catalog.SortedByClasses | src/App.tsx:376 | Two name-sorted sequences that agree on every name class are equal. |
| Catalog.SortByNameOfSorted | src/App.tsx:376 | Sorting an already sorted list changes nothing. |
| Catalog.SortByNameIdempotent | src/App.tsx:376 | Sorting the sorted result again leaves it unchanged. |
| Catalog.NameViewProperties | src/App.tsx:374-377 | In "name" mode the displayed list is a sorted, stable permutation of the tag selection, and sorting it again is the identity. |
| Contact.ContactForm.constructor | src/App.tsx:382-391 | The draft starts as four empty fields and the status as idle with an empty message. |
| Contact.ContactForm.Edit | src/App.tsx:845-880 | Typing into a field replaces that field only. The status is unchanged. |
| Contact.ContactForm.SetStatus | src/App.tsx:404-434 | Setting the status records it as the newest shown status and keeps every status well formed. |
| Contact.ContactForm.Submit | src/App.tsx:393-444 | **Invalid trimmed payload:** error with "Please provide your email and a message."; draft unchanged; no POST; no link. **Endpoint configured:** "Sending…" first; one POST of the trimmed draft; on `Ok`, "sent" with the draft reset to empty; on `NotOk` or `Exception`, the delivery error with the draft kept; no link. **No endpoint:** the `mailto:` link of the trimmed draft; status, draft and POST log unchanged. |
| Contact.Trimmed | src/App.tsx:396-401 | Definition: the payload, each of the four fields trimmed. `ValidationIff` and `TrimmedIdempotent` state its properties. |
| Contact.Deliverable | src/App.tsx:403 | Definition: the negation of the guard, with email and message both non-empty. `ValidationIff` characterises it in terms of the untrimmed draft. |
| Contact.ValidationIff | src/App.tsx:396-409 | The trimmed payload passes validation exactly when the email and the message each contain a non-whitespace character. Every payload field is trimmed. |
| Contact.TrimmedIdempotent | src/App.tsx:396-401 | Trimming the payload again changes nothing. |
| Text.Trim | src/App.tsx:397-400 | Definition: `String.prototype.trim` over the whitespace set `isSpace`. It is the leading and trailing trims in turn. `TrimIsInnerSlice`, `TrimIsTrimmed`, `TrimEmptyIff`, `TrimIdempotent` and `TrimOfTrimmed` state its properties. |
| Text.TrimIsInnerSlice | src/App.tsx:397-400 | `trim` yields a slice `s[i..j]`, and everything outside that slice is whitespace. |
| Text.TrimIsTrimmed | src/App.tsx:397-400 | The trimmed string neither begins nor ends with whitespace. |
| Text.TrimEmptyIff | src/App.tsx:403 | A trimmed field is empty exactly when it was all whitespace. |
| Text.TrimIdempotent | src/App.tsx:397-400 | Trimming twice is trimming once. |
| Text.TrimOfTrimmed | src/App.tsx:439 | A string with no whitespace at either end is its own trim. |
| Text.SplitAtFirst | src/App.tsx:443 | Splitting `a + sep + b` at the first `sep` recovers `a` and `b` when `sep` is not in `a`. The round trip uses this. |
| Contact.SubjectLine | src/App.tsx:439 | Definition: the typed subject, otherwise the trimmed default built from the name. `DefaultSubject` states the default in both cases of the name. |
| Contact.MailBody | src/App.tsx:440-442 | Definition: the name and email header lines, a blank line, then the message. `AlexSubjectAndBody` states its value for the worked example. |
| Contact.MailtoHref | src/App.tsx:439-443 | Definition: the `mailto:` link with the encoded subject and body. `MailtoRoundTrip` states that it parses back; `AlexExample` gives the worked example. |
| Contact.MailtoRoundTrip | src/App.tsx:439-443 | Parsing the link as `mailto:TO?subject=S&body=B` recovers the owner address, the encoded subject and the encoded body, when the address has no `?` and the encoder never emits `&`. |
| Contact.DefaultSubject | src/App.tsx:439 | With no subject typed, the subject is "Portfolio message from NAME", or "Portfolio message from" with no trailing space when the name is empty. |
| Contact.AlexDraftTrimmed | src/App.tsx:396-409 | The draft Alex / a@x.com / "" / "Hi" is already trimmed and passes validation. |
| Contact.AlexSubjectAndBody | src/App.tsx:439-442 | For that draft the subject is "Portfolio message from Alex" and the body is "Name: Alex\nEmail: a@x.com\n\nHi". |
| Contact.AlexExample | src/App.tsx:439-443 | For that draft, the link's subject decodes to "Portfolio message from Alex" and its body to "Name: Alex\nEmail: a@x.com\n\nHi". |
| Timeline.EducationItems | src/App.tsx:742 | Definition: the timeline filtered to type "education", in timeline order. Its properties are the four lemmas below. |
| Timeline.ExperienceItems | src/App.tsx:743 | Definition: the timeline filtered to type "experience", in timeline order. Its properties are the four lemmas below. |
| Timeline.ColumnsAreSelections | src/App.tsx:742-743 | Each column is the order-preserving subsequence of the timeline at exactly the positions whose entry has that column's type. |
| Timeline.ColumnMembership | src/App.tsx:742-743 | An entry is in a column exactly when it is in the timeline with that type. No entry is in both columns. |
| Timeline.ColumnsWithinTimeline | src/App.tsx:742-743 | Together the columns show no entry more often than the timeline holds it. Entries of any other type appear in neither. |
| Timeline.ColumnsPartitionTimeline | src/App.tsx:742-743 | When every entry is "education" or "experience", the columns split the timeline exactly (multisets and lengths add up). |

The sort selector is a plain string, compared with `"name"`. Any other value
keeps the authored order. This follows the code rather than a two-valued
enumeration of sort modes.

## Left out

- Rendering is left out: JSX, layout, the UI component library, icons and
  animations. It is presentation only.
- `fetch` is replaced by its outcome. Request headers, the JSON encoding and
  HTTP status codes beyond `res.ok` are not modelled. The ghost `posted` log
  records the trimmed payload that becomes the JSON body.
- Navigation through `window.location.href` is left out. `Submit` returns the
  link instead.
- The `localeCompare` collation is left out. It depends on the ICU locale and
  is modelled by an arbitrary collation key (see above).
- The internals of `encodeURIComponent` (ECMA-262 section 19.2.6.4) are left
  out; the encoder is a parameter. `MailtoRoundTrip` assumes only that it never
  emits `&`. `AlexExample` assumes a decoder that inverts it.
- The exact whitespace set of `String.prototype.trim` is left out; it is the
  parameter `isSpace`. The default-subject lemmas assume only that the space
  character is whitespace and that no ASCII letter is.
- The hand-authored content constants (`PROFILE`, `SKILLS`, `PROJECTS`,
  `TIMELINE`) are parameters, not data.
- React's `useState`/`useMemo` scheduling is left out. The memos are modelled
  as functions of their inputs.
- The asynchronous suspension during `await fetch` is left out. `Submit` runs
  as one atomic step, so edits made while a request is in flight are not
  modelled. The request has no timeout, so it may never settle, leaving the
  status at "Sending…" for good. `FetchOutcome` has only settled outcomes, so
  `Submit` always ends in "sent" or in the delivery error.
- Contact.ContactForm.Submit: on the mailto path it always returns the link.
  Dafny strings are sequences of Unicode scalar values, while the page's
  strings are UTF-16. A field holding a lone surrogate makes
  `encodeURIComponent` throw `URIError`, so the handler rejects and nothing
  navigates. That case cannot be written in the model.
- Disabling the submit button while sending is a UI convention and is left out.
- The commented-out helpers earlier in the file are dead code.
- Catalog.SortInPlace: the insertion sort stands for the engine's
  `Array.prototype.sort`. Only its result is claimed, through
  `StableSortUnique`, not its algorithm or cost.
