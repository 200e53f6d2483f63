# Folder/file namespace of the document explorer, in Dafny

This project models the core of a document-management front end. That core is
the folder/file namespace kept in two document collections: `dossiers`
(folders) and `fichiers` (files).

Folders are flat records. Each one carries:

- a materialised `path` (segments joined by `/`),
- its `parent` path (absent for a root folder),
- a depth `niveau`,
- a rank `ordre` among its siblings.

A file records the path of its folder in `dossierId`, or `"root"`.

The modules follow the source files:

- **Documents**: the two record shapes.
- **Paths**: path joining, segment counting, the parent path behind the
  "Retour" button, and renaming the last segment.
- **Namespace**: the store as a class `Store` holding the two tables and the
  set of stored objects. Its methods are the explorer's handlers:
  - listing a location;
  - `handleCreateFolder`, with the trimmed-name guard of the new-folder form;
  - `updateFolder`, with its one-level cascade and the guard of the rename
    prompt;
  - `handleFolderDelete`;
  - `handleFileUpload`;
  - `handleFileDelete`.

  Each handler loops over query results and updates records one by one.
- **NamespaceProperties**: what those handlers do to the tree that the tables
  encode.
- **ExplorerView**: `sortFiles`, `handleSort`, `handleSearch`, the breadcrumb
  trail and the heading.
- **UploadNaming**: the 50 MiB limit, the sanitised storage key and the type
  taken from the extension.
- **SubtreeRename**: the rename of a whole subtree that the cascade is
  evidently meant to perform (see Findings).
- **Comments**: the comment panel:
  - the `@(\w+)` mention extraction loop;
  - the activity summary;
  - adding, editing and deleting comments over a `Thread` class.
- **ResetPassword**: the password-reset page:
  - `getParameterByName`;
  - the decision taken when the page opens;
  - the validation chain of the form.
- **InitializeData**: seeding the four default root folders into an empty
  store.
- **Wrappers**, **Strings**, **Collections** and **Sorting** are helpers. They
  model the parts of the JavaScript runtime that the code relies on: `split`,
  `join`, `trim`, `toLowerCase`, `includes`, `replace`, `filter` and the
  stable `sort`.

Several inputs are passed as parameters:

- clocks (`new Date()`, `Date.now()`),
- the signed-in user,
- the NNI from the user's profile,
- the answer to the rename prompt,
- `decodeURIComponent`,
- the outcome of the Firebase authentication calls,
- which seeding insert fails.

Firestore gives each new document a random identifier, and a query without
`orderBy` returns documents in identifier order. The model replaces both
with one fixed choice: the store hands out increasing identifiers, so table
order is creation order, and every query returns documents in that order.
Where the source's order is arbitrary, the model's order is one of the
orders the source can produce (see "## Left out").

Where the code does something a reader might not expect, the model follows
the code:

- The folder listing sorts by `ordre` alone. Ties keep store order; they are
  not broken by name.
- The search guard is `!query`, so a query made only of spaces still searches.
- The rename cascade is one level deep and never updates `niveau`.
- A folder is created without checking that its parent exists or that its name
  holds no `/`. The properties that need these facts take them as
  preconditions (`NamespaceProperties.CreatedFolderFields`,
  `NamespaceProperties.CreateKeepsConsistent`).
  `Paths.SlashInNameBreaksDepth` shows what goes wrong without them.
- A folder is renamed without checking that the new name holds no `/`: the
  prompt refuses only a cancelled, empty or unchanged answer. The one-level
  rename lemmas cover such names. `NamespaceProperties.RenameRecordFields`,
  `NamespaceProperties.NewPathDepth` and `NamespaceProperties.RenameChildFields`
  state that the records stay well formed exactly when the new name holds no
  `/`. `NamespaceProperties.OldChildPathVanishes`,
  `NamespaceProperties.RenameOrphansGrandchild` and
  `NamespaceProperties.RenameStrandsSubfolderFiles` state what happens when the
  renamed folder lands on a subfolder's old path.
  `NamespaceProperties.SlashRenameBreaksTree` shows the concrete case:
  renaming `a` to `a/b`. The corrected subtree rename (`SubtreeRename.RenameSubtree`)
  refuses such a name, and `SubtreeRename.SubtreeOther` and
  `SubtreeRename.RenameSubtreeConsistent` take a `/`-free name as a
  precondition.
- Folder paths are meant to be unique, but neither `createFolder` nor
  `updateFolder` checks that a sibling already has the name.
  `NamespaceProperties.CreateKeepsUniquePathsIff` shows that a second folder of
  the same name at the same location duplicates a path. The properties of the
  one-level cascade and of folder deletion hold without unique paths. The
  corrected subtree rename assumes them (`SubtreeRename.SubtreeOther`,
  `SubtreeRename.RenameSubtreeConsistent`): a second folder at the renamed
  path would take the new path but keep its old name.

## Model

| member | source | states |
|---|---|---|
| `Namespace.Store.ListChildren` | src/components/FileExplorer.tsx:43-68 | The listed subfolders are the folders whose `parent` is the location key (`null` at the root), stably sorted by `ordre`. The listed files are those whose `dossierId` is the location key (`'root'` at the root), in store order. |
| `Namespace.Store.CountFoldersUnder` | src/components/FileExplorer.tsx:176-181 | The count is the number of folders whose `parent` equals the key. |
| `Namespace.Store.CreateFolder` | src/components/FileExplorer.tsx:163-194 | Exactly one record is appended. Its rank is the sibling count plus one, and its path, parent and level are computed from the current location. Files and stored objects are unchanged. |
| `Namespace.Store.SubmitNewFolder` | src/components/FileExplorer.tsx:714-721 | A blank name writes nothing. Otherwise the trimmed name is created, with exactly the effect of `CreateFolder`. |
| `NamespaceProperties.CreatedFolderFields` | src/components/FileExplorer.tsx:168-194 | At the root, `path == name`, `parent` is null and `niveau == 1`. Elsewhere, `path == currentPath/name`, `parent == currentPath` and `niveau == segments(currentPath) + 1`. `ordre` is the sibling count plus one. The record is well formed, and "Retour" from it leads back to `currentPath`. |
| `NamespaceProperties.CreateKeepsUniquePathsIff` | src/components/FileExplorer.tsx:163-194 | With unique paths before, creating a `/`-free name keeps paths unique if and only if no folder at that location already has the name. |
| `NamespaceProperties.CreateKeepsConsistent` | src/components/FileExplorer.tsx:168-194 | Creating a `/`-free, non-empty name at an existing location keeps every folder well formed. Every parent and every `dossierId` still names a folder. |
| `NamespaceProperties.CreateKeepsNumbering` | src/components/FileExplorer.tsx:176-191 | If no folder has been deleted, the folders of every location stay numbered 1, 2, 3, … in creation order. |
| `NamespaceProperties.NumberedListingInStoreOrder` | src/components/FileExplorer.tsx:55 | Siblings numbered in creation order are listed in creation order. |
| `NamespaceProperties.CreationOrderNotNameOrder` | src/components/FileExplorer.tsx:176-191 | Root folders created as C, A, B get ranks 1, 2, 3 and are listed as C, A, B. |
| `Paths.ChildLevelIsDepth` | src/components/FileExplorer.tsx:168-172 | For a `/`-free name, the level assigned equals the segment count of the new path. |
| `Paths.SlashInNameBreaksDepth` | src/components/FileExplorer.tsx:168-172 | The name `a/b` created at the root gets level 1, yet its path has 2 segments. |
| `Paths.ParentOfChild` | src/components/FileExplorer.tsx:581-584 | "Retour" from a folder created at `currentPath` leads back to `currentPath`. |
| `Paths.ParentPathDropsOneSegment` | src/components/FileExplorer.tsx:581-584 | "Retour" drops exactly the last segment: parent path, `/` and last segment rebuild the path. |
| `Paths.RenamedChild` | src/components/FileExplorer.tsx:392-398 | Replacing the last segment of `join(parent, old)` gives `join(parent, new)`. |
| `Namespace.Store.UpdateFolder` | src/components/FileExplorer.tsx:387-452 | For a known folder, the tables become `RenamedFolders` and `RenamedFiles` of the old tables: the record, then its files, then its direct subfolders. For an unknown folder, the call fails and nothing changes. Stored objects are never touched. |
| `Namespace.Store.RepointFileTable` | src/components/FileExplorer.tsx:412-430 | Every file whose `dossierId` is the old path gets the new path. No other record changes. |
| `Namespace.Store.ReparentFolderTable` | src/components/FileExplorer.tsx:432-452 | Every folder whose `parent` is the old path gets `parent = newPath`, and the first occurrence of the old path in its `path` is replaced. No other record changes. |
| `Namespace.Store.HandleFolderRename` | src/components/FileExplorer.tsx:374-384 | A cancelled or empty answer, or the current name, changes nothing. Any other answer performs `updateFolder`: the renamed folder and its direct cascade when the identifier exists, otherwise a rename error with nothing changed. |
| `NamespaceProperties.NewPathIsSibling` | src/components/FileExplorer.tsx:392-398 | In a consistent tree, the computed new path is `join(parent, newName)`, which is `newName` for a root folder. |
| `NamespaceProperties.RenameRecordFields` | src/components/FileExplorer.tsx:392-407 | The renamed record gets `nom = newName` and `path = join(parent, newName)`. Its `parent`, `niveau` and `ordre` are untouched. It stays well formed if and only if the new name holds no `/`. |
| `NamespaceProperties.NewPathDepth` | src/components/FileExplorer.tsx:392-407 | The new path has as many segments as the old one, plus one for every `/` in the new name. So the untouched `niveau` stays right if and only if the new name holds no `/`. |
| `NamespaceProperties.RenameChildFields` | src/components/FileExplorer.tsx:433-447 | When the new path holds no `$`, a direct subfolder gets `parent = newPath` and `path = newPath/nom`. It stays well formed if and only if the new name holds no `/`. |
| `NamespaceProperties.RenameFrame` | src/components/FileExplorer.tsx:402-452 | Only the renamed folder and its direct subfolders change. Only files whose `dossierId` is the old path change, and they get the new path. |
| `NamespaceProperties.OldChildPathVanishes` | src/components/FileExplorer.tsx:433-447 | After a rename to a different name, and when the new path holds no `$`, some folder keeps a direct subfolder's old path if and only if the renamed folder's new path is that path. A `/`-free new name never does this. |
| `NamespaceProperties.SlashRenameBreaksTree` | src/components/FileExplorer.tsx:376-407 | In a consistent table with root `a` and subfolder `a/b`, renaming `a` to `a/b` gives the record path `a/b` with `niveau` 1 over two segments. The record is no longer well formed, and the subfolder's old path is now taken. |
| `NamespaceProperties.RenameOrphansGrandchild` | src/components/FileExplorer.tsx:433-447 | When the new path holds no `$`, a grandchild keeps its record. Its `parent` names a folder if and only if the renamed folder landed on that path. Otherwise the tree is no longer consistent. |
| `NamespaceProperties.RenameStrandsSubfolderFiles` | src/components/FileExplorer.tsx:412-447 | When the new path holds no `$`, a file inside a direct subfolder keeps its `dossierId`. That path names a folder if and only if the renamed folder landed on it. |
| `Namespace.Store.AnyFileIn` | src/components/FileExplorer.tsx:351-352 | True exactly when some file has `dossierId == path`. |
| `Namespace.Store.AnySubfolderOf` | src/components/FileExplorer.tsx:354-355 | True exactly when some folder has `parent == path`. |
| `Namespace.Store.DeleteFolder` | src/components/FileExplorer.tsx:348-371 | If any file is in the folder or any folder has it as parent, the call fails with the not-empty message and nothing changes. Otherwise only the record with the folder's id is removed. |
| `NamespaceProperties.DeleteKeepsConsistent` | src/components/FileExplorer.tsx:357-363 | Removing an empty folder keeps the tree consistent. |
| `NamespaceProperties.DeleteRemovesExactlyOne` | src/components/FileExplorer.tsx:363-366 | With unique ids, the deletion removes exactly the one record and keeps the order of the others. |
| `Namespace.Store.DeleteFile` | src/components/FileExplorer.tsx:330-345 | The stored object is deleted first. If that fails, nothing changes and the call fails. Otherwise the object and the record with the file's id are both removed. |
| `Namespace.Store.UploadFile` | src/components/FileExplorer.tsx:220-289 | A file over 50 MiB is refused and nothing changes. Otherwise the object is stored under its key, and then one record is appended with the type, the container and the storage key. |
| `UploadNaming.SanitizeOutput` | src/components/FileExplorer.tsx:235 | A sanitised name holds only `[a-zA-Z0-9.-]` and `_`, and so no `/`. |
| `UploadNaming.SanitizeIdempotent` | src/components/FileExplorer.tsx:235 | Sanitising twice gives the same result as sanitising once. |
| `UploadNaming.NatToStringValue` | src/components/FileExplorer.tsx:235 | The decimal rendering of the upload time reads back as that time. |
| `UploadNaming.StorageKeyLastSegment` | src/components/FileExplorer.tsx:235-237 | The last segment of the storage key is the time, `_`, then the sanitised name. |
| `UploadNaming.FileTypeOfExtension` | src/components/FileExplorer.tsx:236 | `base.ext` has type `ext` lower-cased, whatever dots `base` holds. |
| `UploadNaming.FileTypeOfNoDot` | src/components/FileExplorer.tsx:236 | A name without a dot is its own type, lower-cased. |
| `UploadNaming.FileTypeHasNoDot` | src/components/FileExplorer.tsx:236 | A type never contains a dot. |
| `ExplorerView.ComparatorTotalPreorder` | src/components/FileExplorer.tsx:103-133 | The comparator is a total preorder for every column and direction. |
| `ExplorerView.SortFilesCorrect` | src/components/FileExplorer.tsx:103-133 | The result is a permutation of the input, ordered by the column's key (lower-cased text, numeric size or upload time) in the chosen direction. Equal keys keep their input order. |
| `ExplorerView.DisplayedFilesCorrect` | src/components/FileExplorer.tsx:526-527 | While searching, the shown list is a permutation of the search results; otherwise it is a permutation of the folder's files. Either way it is ordered by the chosen column in the chosen direction. |
| `ExplorerView.DescendingIsReversedKey` | src/components/FileExplorer.tsx:113-131 | Descending compares the keys the other way round. |
| `ExplorerView.HandleSort` | src/components/FileExplorer.tsx:151-160 | Clicking the same column flips the direction. Clicking another column selects it in ascending order. |
| `ExplorerView.HandleSortTwice` | src/components/FileExplorer.tsx:151-160 | Two clicks on the current column restore the state. Two clicks on a new column sort it descending. |
| `ExplorerView.HandleSearch` | src/components/FileExplorer.tsx:476-508 | An empty query gives "not searching" with no results. Any other query searches, and every result is a stored file. |
| `ExplorerView.SearchFindsExactly` | src/components/FileExplorer.tsx:504-508 | A file is a result exactly when it is stored and its lower-cased name contains the lower-cased query. |
| `ExplorerView.SearchKeepsOrder` | src/components/FileExplorer.tsx:504-508 | Results come in store order: searching a concatenation gives the concatenation of the results. |
| `ExplorerView.SearchIgnoresCase` | src/components/FileExplorer.tsx:505-508 | Lower-casing the query changes nothing. |
| `ExplorerView.BlankQueryStillSearches` | src/components/FileExplorer.tsx:478-482 | A query of one space still searches. |
| `ExplorerView.BreadcrumbShape` | src/components/FileExplorer.tsx:71-89 | The trail starts with `('root','Accueil','')` and has one entry per segment. Each entry is named after the first folder at its cumulative path, or after the raw segment when there is none. |
| `ExplorerView.AsWrittenCrumbsAllLeadHere` | src/components/FileExplorer.tsx:73-84 | As written, every entry past the root has the whole current path as its `path`. |
| `ExplorerView.AsWrittenFirstCrumbMisdirects` | src/components/FileExplorer.tsx:73-84 | At `a/b`, the written entry for `a` leads to `a/b`, where the intended one leads to `a`. |
| `ExplorerView.BreadcrumbPaths` | src/components/FileExplorer.tsx:72-84 | In the intended trail, entry `i` leads to the first `i` segments of the current path, and the last entry leads to the current path. |
| `ExplorerView.BreadcrumbFindsFolder` | src/components/FileExplorer.tsx:78-83 | An entry whose folder is found carries that folder's path and its non-empty name. |
| `ExplorerView.HeadingNamesCurrent` | src/components/FileExplorer.tsx:594-596 | The heading is `Accueil` at the root. Elsewhere it is the name of the first folder at the current path, or the last segment when there is none. |
| `SubtreeRename.RenameSubtree` | src/components/FileExplorer.tsx:387-452 | Corrected cascade. A new name holding `/` fails, and so does an unknown folder; nothing changes in either case. Otherwise every folder and file record is rebased from the old prefix to the new one. |
| `SubtreeRename.RebaseFolderTable` | src/components/FileExplorer.tsx:432-452 | Corrected cascade: every folder's path and parent are rebased, and the renamed folder takes the new name. Files are unchanged. |
| `SubtreeRename.RebaseFileTable` | src/components/FileExplorer.tsx:412-430 | Corrected cascade: every file's `dossierId` is rebased. Folders are unchanged. |
| `SubtreeRename.RenameSubtreeConsistent` | src/components/FileExplorer.tsx:387-452 | When folder paths are unique and the new name holds no `/`, the corrected rename keeps the tree consistent: every folder stays well formed, and every parent and `dossierId` names a folder. |
| `SubtreeRename.SubtreeAgreesOnFirstLevel` | src/components/FileExplorer.tsx:392-447 | On the renamed folder and its direct subfolders, the corrected rename agrees with the written cascade when the new path holds no `$`. |
| `SubtreeRename.SubtreeFilesFollow` | src/components/FileExplorer.tsx:412-430 | Files in the renamed folder move to the new path. Files outside the subtree are untouched. |
| `SubtreeRename.DollarExpandedInChildPath` | src/components/FileExplorer.tsx:441 | Renaming `a` to `x$&` turns the subfolder path `a/b` into `xa/b` while its parent becomes `x$&`, so the subfolder is no longer well formed. |
| `SubtreeRename.DollarKeptBySubtreeRename` | src/components/FileExplorer.tsx:441 | Plain prefix substitution turns `a/b` into `x$&/b`, which stays well formed. |
| `Comments.ExtractMentions` | src/components/CommentPanel.tsx:56-61 | The `exec` loop returns the reference mention list of the text. |
| `Comments.MentionName` | src/components/CommentPanel.tsx:57-60 | A captured name is a non-empty run of word characters. |
| `Comments.NextMention` | src/components/CommentPanel.tsx:59 | `exec` from `lastIndex` finds the leftmost `@` followed by a word character, or reports that there is none. |
| `Comments.MentionsAreWords` | src/components/CommentPanel.tsx:57-60 | Every extracted mention is non-empty and contains only `[A-Za-z0-9_]`. |
| `Comments.NoMentionsIff` | src/components/CommentPanel.tsx:56-61 | The list is empty exactly when no `@` is followed by a word character. |
| `Comments.ActivityDetailsQuote` | src/components/CommentPanel.tsx:87 | The details quote the whole text when it has at most 30 characters. Otherwise they quote its first 30 characters followed by `...`. |
| `Comments.OrElse` | src/components/CommentPanel.tsx:67 | The logical-or fallback keeps the first value unless it is null or empty, and otherwise takes the second. |
| `Comments.Thread.AddComment` | src/components/CommentPanel.tsx:51-95 | Blank text or no signed-in user writes nothing. Otherwise the comment is appended, with its mentions and `modifie = false`, and then its activity entry. |
| `Comments.StoredMentions` | src/components/CommentPanel.tsx:69-77 | A new comment has `modifie = false`, its text, and its text's mentions, all of which are words. |
| `Comments.Thread.SaveEdit` | src/components/CommentPanel.tsx:121-137 | Blank text or no user writes nothing. An unknown id fails. Otherwise that comment's text is replaced and it is marked modified. |
| `Comments.EditKeepsMentions` | src/components/CommentPanel.tsx:126-130 | An edit sets `contenu`, `modifie = true` and the modification date. It keeps the id, the author, the creation date and the mentions. |
| `Comments.Thread.DeleteComment` | src/components/CommentPanel.tsx:98-108 | With no user nothing changes. Otherwise the comment with that id, if any, is removed. |
| `ResetPassword.EscapedNameIsLiteral` | src/pages/ResetPasswordPage.tsx:8 | For a name without a backslash, the escaped pattern matches the name literally, brackets included. |
| `ResetPassword.FindParam` | src/pages/ResetPasswordPage.tsx:9-10 | The match found is the leftmost `[?&]name` followed by `=`, `&`, `#` or the end, or there is none. |
| `ResetPassword.ValueEnd` | src/pages/ResetPasswordPage.tsx:9 | The value extends up to the next `&` or `#`, or to the end. |
| `ResetPassword.GetParameterAbsent` | src/pages/ResetPasswordPage.tsx:9-11 | The result is null exactly when no `?` or `&` is followed by the name and then `=`, `&`, `#` or the end. |
| `ResetPassword.GetParameterEmpty` | src/pages/ResetPasswordPage.tsx:12 | A name with no `=` or an empty value gives `''`. |
| `ResetPassword.GetParameterValue` | src/pages/ResetPasswordPage.tsx:9-13 | Otherwise the result is the decoded text up to the next `&` or `#`, with `+` read as a space. |
| `ResetPassword.ParameterRoundTrip` | src/pages/ResetPasswordPage.tsx:7-14 | `?name=v` written after a prefix without `?` or `&` reads back as the decoded `v`. |
| `ResetPassword.OpenDecision` | src/pages/ResetPasswordPage.tsx:45-57 | No mode, no code and `reset-password` in the URL shows success. Otherwise a mode other than `resetPassword` or a missing code is an error, and only the remaining case verifies the code. |
| `ResetPassword.ContinueUrlRedirects` | src/pages/ResetPasswordPage.tsx:32-41 | A URL containing `continueUrl` redirects to its value followed by `?mode=`. |
| `ResetPassword.AfterVerify` | src/pages/ResetPasswordPage.tsx:77-86 | An accepted code shows the form for its e-mail. A rejected code shows the expired-link error. |
| `ResetPassword.AfterConfirm` | src/pages/ResetPasswordPage.tsx:113-120 | A confirmed reset succeeds. A failed one shows its message, or the generic one when the message is empty. |
| `ResetPassword.PasswordResetOrder` | src/pages/ResetPasswordPage.tsx:94-114 | A mismatch is reported before the length is checked, and a length below 8 is rejected. The reset is attempted exactly when both checks pass and a code is present. |
| `InitializeData.InitializeDefaultFolders` | src/utils/initializeData.ts:9-53 | A non-empty store is left unchanged. An empty one receives the defaults in order. A failed insert stops the loop, keeps the earlier inserts and surfaces the generic error. |
| `InitializeData.InitializeTwice` | src/utils/initializeData.ts:13-19 | Once the first call has written a folder, the second call writes nothing and succeeds. |
| `InitializeData.DefaultsConsistent` | src/utils/initializeData.ts:23-39 | Every prefix of the defaults is a consistent tree of distinct root paths, ranked 1, 2, 3, 4. |
| `InitializeData.DefaultsAreCreations` | src/utils/initializeData.ts:23-28 | Each default is the record that creating its name at the root would write, with `niveau = 1`, `parent = null`, `path == nom` and the same `ordre`. |
| `InitializeData.DefaultNamesFacts` | src/utils/initializeData.ts:23-28 | The default names are non-empty, contain no `/` and are pairwise distinct. |

## Left out

- Firebase I/O (`getDocs`, `addDoc`, `updateDoc`, `deleteDoc`, `deleteObject`, `getDownloadURL`, `onSnapshot`) is replaced by the in-memory `Store` and `Thread`. Transient store failures of reads and writes are not modelled.
- The `Promise.all` fan-out of the rename cascade is modelled as sequential loops. The writes touch distinct records.
- Firestore's random document identifiers are not modelled, so the model fixes orders that the source leaves to those identifiers. These are the order of siblings with equal `ordre`, the order of listed files and of search results, and which of several folders at one path names a breadcrumb entry (`docs[0]`). Equal ranks arise after a delete: create A (rank 1) and B (rank 2), delete A, create C (rank 2). The model lists B before C; the source lists them in identifier order.
- Concurrency is not modelled. That includes the read-then-write race on `ordre` and readers that observe a cascade half done.
- `localeCompare` is taken as code-point order. Dates are integer timestamps, so `new Date(...)` parsing is not modelled.
- `toLowerCase` maps only Basic Latin and Latin-1 letters. Other scripts are left as they are.
- Strings are sequences of Unicode scalar values, not UTF-16 code units. `substring(0, 30)` and `length < 8` therefore count astral characters once. For the same reason `UploadNaming.Sanitize` maps an astral character to one `_`, where the regular expression, which has no `u` flag, writes `__`.
- `decodeURIComponent` (section 2.1 of RFC 3986) is an uninterpreted parameter `decode`. Its exception on malformed input is not modelled.
- `ResetPassword.GetParameterByName`: the name is matched literally. Regular-expression metacharacters other than `[` and `]` are not interpreted; every call site passes a plain name.
- `InitializeData.InitializeDefaultFolders`: one clock reading `now` stamps all four inserts. The source calls `new Date()` once per insert, after the previous write has finished.
- The Firebase calls `verifyPasswordResetCode` and `confirmPasswordReset`, the API-key fallback and the language setting become parameters.
- `Namespace.Store.UploadFile`: a failed transfer and a failed record write after the bytes are stored are not modelled. Progress reporting is not modelled either.
- `Namespace.Store.UploadFile`: the object key is the template string itself. Firebase Storage stores `storageRef.fullPath`, which drops empty path segments. The two differ only when the current path holds an empty segment, which a folder name ending in `/` produces (`files/x//5_a.txt` against `files/x/5_a.txt`). Firebase's path handling is not part of this model.
- `Namespace.Store.DeleteFile`: a failed `deleteObject` is modelled as a key that object storage does not hold. A failure of the record delete after the object is gone is not modelled.
- `Comments.Thread.AddComment`: the profile lookup of the NNI is a parameter. Failed writes are not modelled.
- `Comments.Thread.AddComment`: one clock reading `now` stamps both the comment's `dateCreation` and the activity's `dateActivite`. The source reads the clock once for each, before and after the comment write.
- The comment subscription ordered by date, `formatDate`, `formatFileSize` (floating point), the view-mode toggle, navigation clicks, the search debounce and all rendering are not modelled.
- The camera, login, dashboard, document manager, theme, cloud functions and project-renaming script are not part of this model.

## Findings

| source | as written | input that shows it | evidently intended | confidence | as-written member | corrected member |
|---|---|---|---|---|---|---|
| src/components/FileExplorer.tsx:433-447 | the rename cascade rewrites direct subfolders and the files directly in the folder only | folders `A`, `A/B`, `A/B/C`; rename `A` to `A2`: `A/B/C` keeps parent `A/B`, which no longer exists, and files in `A/B` keep `dossierId` `A/B` | every folder and file at or below the renamed folder is rebased onto the new path | medium, not executed | `NamespaceProperties.RenameOrphansGrandchild` | `SubtreeRename.RenameSubtreeConsistent` |
| src/components/FileExplorer.tsx:441 | the subfolder path is rewritten with `String.prototype.replace`, which expands `$&` and other `$` patterns in the new path | root `a` with subfolder `a/b`; rename `a` to `x$&`: subfolder path becomes `xa/b` with parent `x$&` | the old prefix is replaced by the new path literally | medium, not executed | `SubtreeRename.DollarExpandedInChildPath` | `SubtreeRename.DollarKeptBySubtreeRename` |
| src/components/FileExplorer.tsx:73-84 | each breadcrumb entry's `path` reads the shared `cumulativePath` after the `await`, so every entry gets its final value | current path `a/b`: the entry for `a` leads to `a/b` | entry `i` leads to the path of its first `i` segments | high, not executed | `ExplorerView.AsWrittenFirstCrumbMisdirects` | `ExplorerView.BreadcrumbPaths` |
