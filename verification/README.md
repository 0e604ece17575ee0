# HSFS in Dafny

HSFS is a user-space NFS client: an NFSv3 file system behind FUSE, together with an asynchronous
NFSv4 library. This project models the parts of it where correctness spans several functions and
whole runs, and proves what those parts are for.

- **Paths** (`Paths`, `Resolution`, `CStrings`, `Normalize`, `Compound`, `Symlink`). Path normalisation rewrites a
  C string in place until no pattern matches. `Paths.NormalForm` is what it should give: the
  components of the input evaluated on a stack. The in-place loops are proved to compute exactly
  that on every string, and the result is followed through splitting, the chain of LOOKUP operations
  and the splicing of a symbolic link, where an index counted from the server's results must select
  the right piece of text. `Resolution` says what the texts mean, among them the empty one that a path
  such as `/.` is resolved to.
- **Client caches** (`PageCache`, `DirCache`). The page cache is direct mapped, with partial updates
  and expiry; a run of puts and invalidations is compared with the last value written to each byte.
  The directory cache is a linked list on the heap, refined by a sequence.
- **Inodes and lookup counts** (`GoldenHash`, `Inodes`, `InodeCache`). `Inodes` describes the inode
  cache as a map from number to file and each FUSE handler as a step on it, and proves what holds
  over every run of handlers. `InodeCache` holds the two hash tables, the counter and the handlers as
  the source has them, each proved to take the abstract step. A pointer to an inode is an index into
  the sequence of all inodes, which only grows.
- **NFSv4 requests** (`Replies`, `Requests`, `RequestLaws`, `ReplyLaws`, `Callbacks`). Every callback of open,
  truncate, close, mount, mkdir, remove, link, rename, opendir, chdir and getacl, over all requests of a
  context with the mutex and the working directory they share. `Replies` reads the results of a
  compound, `Requests` says for every reply where it takes a request, `RequestLaws` when that goes
  wrong and when it does not, `ReplyLaws` says by the reply alone what the application is told and what
  is sent next, and `Callbacks` has the code. Replies are arbitrary: also those that
  answer something that was not asked. A request carries its path texts, so that it can be said on which of them
  the program goes wrong; `Nfs.crashed` is set then and the run ends. `Nfs.env` scripts which
  allocations and sends fail. The request a callback is called with is in `Nfs.data` and `Nfs.texts`.
- **The server** (`Server`, `Effects`). The operations of a compound get a meaning: steps on a tree of
  directories, files and links with a current and a saved handle. `Server` proves what each compound of
  the client does to every tree, `Effects` what a request does in terms of the paths that the application
  gave, what it tells the application, and how a link on the way is found, read and followed.
- **Transfers and codecs** (`Transfer`, `Readdir`, `Fattr`, `Acl`, `BlockSize`). Chunked reads and
  writes against a server that takes as much as it likes, directory paging, attribute lists and owner
  strings, ACLs, and transfer sizes.

Seven findings are stated as theorems, each with its exact condition and an input that shows it.

- Normalising succeeds with the empty text for paths such as `/.` (`Paths.NormalFormEmpty` says exactly
  when). Splitting it writes through a null pointer and looking it up reads behind its end. A call that
  splits its path strays on it exactly then (`RequestLaws.StumblesExactly`); link, rename and an open that
  follows a link stray when they come to it later (`RequestLaws.StraysExactly`, shown by
  `Callbacks.OldDotStrays` and `Callbacks.DotLinkStrays`). Calls that resolve their path twice look up
  the working directory in place of the root (`Resolution.ChainAfterBoth`, shown by
  `Resolution.DotFromHome`).
- A mount reads the first result of a good reply to SETCLIENTID without asking whether there is one
  (`RequestLaws.StraysExactly`, shown by `Callbacks.EmptyReplyStrays`).
- An open with `O_NOFOLLOW` that meets a symbolic link reports once but is never freed and keeps the
  mutex (`RequestLaws.LeaksExactly`, shown by `Callbacks.NoFollowLeaks`).
- A getacl that fails is reported and freed and then both once more (`Callbacks.Nfs.GetaclCb`, shown by
  `Callbacks.GetaclStrays`).
- A chdir that fails to allocate the data of its GETATTR is reported and also returns -1
  (`Callbacks.Nfs.ChdirAsync`, shown by `Callbacks.ChdirToldTwice`).
- A reply that tells of a link at an OPEN makes an open of any request but an opendir, whether OPEN was
  asked or not (`Callbacks.Nfs.Lookup1Cb`, shown by `Callbacks.MkdirTurned`).
- A server whose maximum is below 1024 bytes is sent more than it allows (`BlockSize.NegotiatedWithin`,
  shown by `BlockSize.SmallMaximum`).

Where none of the causes is met the program never strays, over every run (`Callbacks.Nfs.RunTame`).

## Model

| member | source | states |
|---|---|---|
| Paths.JoinComponents | lib/libnfs.c:1008-1014 | splitting a rooted text at its slashes and joining the pieces gives the text back |
| Paths.ComponentsJoin | lib/libnfs.c:1008-1014 | joining slash-free pieces and splitting again gives the pieces back |
| Paths.WalkConcat | lib/libnfs.c:1039-1057 | evaluating components on a stack can be done piece by piece |
| Paths.NormalFormIsCanonical | lib/libnfs.c:1008-1098 | every successful result is canonical (no empty, "." or ".." component, no slash at the end but for "/") or empty |
| Paths.NormalFormEmpty | lib/libnfs.c:1059-1098 | the result is empty exactly when the evaluation is the root and the input does not end in a slash |
| Paths.NormalFormComponents | lib/libnfs.c:1002-1101 | the components of a result that is not empty are the stack evaluation of the input |
| Paths.CanonicalIsFixed | lib/libnfs.c:1002-1101 | a text is its own normal form exactly when it is canonical, so normalising again changes nothing |
| Normalize.DropDoubleSlash | lib/libnfs.c:1008-1014 | replacing "//" by "/" anywhere keeps the normal form |
| Normalize.DropDot | lib/libnfs.c:1016-1022 | replacing "/./" by "/" anywhere keeps the normal form |
| Normalize.DropNameAndUp | lib/libnfs.c:1039-1057 | dropping a proper name with the ".." behind it keeps the normal form |
| Normalize.UpDropped | lib/libnfs.c:1039-1057 | dropping the name before the first "/../" keeps the meaning and brings back neither "//" nor "/./" |
| Normalize.SquashSlashes | lib/libnfs.c:1008-1014 | the first rewriting loop ends, leaves no "//" and keeps the normal form |
| Normalize.SquashDots | lib/libnfs.c:1016-1022 | the second rewriting loop ends, leaves no "/./" and no "//", and keeps the normal form |
| Normalize.CollapseUp | lib/libnfs.c:1050-1056 | one in-place collapse of "/name/../" gives a shorter text with the same normal form |
| Normalize.CollapseUps | lib/libnfs.c:1039-1057 | the third loop ends and fails exactly on texts whose normal form fails |
| Normalize.Finish | lib/libnfs.c:1059-1100 | the rules for the end of a tidy text turn it into its normal form or fail with it |
| Normalize.NormalizePath | lib/libnfs.c:1002-1101 | for every string: succeeds exactly when the stack evaluation does, and then leaves the normal form in the buffer |
| Resolution.RelativeFromCwd | lib/nfs_v4.c:223-230 | a relative path evaluates from where the working directory ends |
| Normalize.ResolvePath | lib/nfs_v4.c:214-245 | gives the normal form of the path, taken from the working directory when relative, or null exactly when that has none |
| Resolution.ChainIsEvaluation | lib/nfs_v4.c:1104-1149 | for every input, the names looked up after normalising are its stack evaluation |
| Resolution.DotIsRoot | lib/libnfs.c:1059-1098 | "/." is resolved to the empty text |
| Resolution.ResolveAgain | lib/nfs_v4.c:1405-1410 | resolving again changes nothing, but the empty text becomes the working directory |
| Resolution.ChainAfterBoth | lib/nfs_v4.c:272-293 | for every path that resolves, the names looked up after both resolutions are its evaluation exactly when it does not resolve to the empty text or the working directory is the root |
| Resolution.DotFromHome | lib/nfs_v4.c:272-293 | from "/home" the path "/." is looked up as "/home" |
| Compound.SlashesAreComponents | lib/nfs_v4.c:583-592 | the slashes of a rooted text are as many as its components |
| Compound.NumPathComponents | lib/nfs_v4.c:583-592 | counts the components of a rooted text |
| Compound.LookupsName | lib/nfs_v4.c:1132-1144 | cutting at the slashes names the components in order |
| Compound.AppendLookups | lib/nfs_v4.c:1132-1144 | the loop cuts the buffer into one C string for each component and appends one LOOKUP for each, in order |
| Compound.AllocateOp | lib/nfs_v4.c:1104-1149 | one put-handle, one LOOKUP for each component, one GETATTR, within the allocated count with room for the filler |
| Resolution.SplitRejoins | lib/nfs_v4.c:295-313 | the directory's components followed by the name are the components of the path |
| Compound.CallData.SplitPath | lib/nfs_v4.c:295-313 | splits any stored text in place at its last slash into directory and name, and writes through a null pointer exactly when there is no slash |
| Compound.PathOps | lib/nfs_v4.c:1368-1381 | the compound for a rooted path, cut up in place, says put-handle, its LOOKUPs, GETATTR and the filler's operations, with their names and handles |
| Compound.LookupOps | lib/nfs_v4.c:1412-1427 | the same on a copy of the path |
| Compound.CallData.BuildLookup | lib/nfs_v4.c:1395-1427 | for every stored path: refused exactly when it does not resolve, strays exactly when it resolves to the empty text, else the stored path is its normal form and the compound looks up its evaluation |
| Compound.CallData.FullPathLookup | lib/nfs_v4.c:272-293 | for every path: never strays, is refused exactly when the path does not resolve, and looks up what resolving twice gives |
| Symlink.FindLink | lib/nfs_v4.c:1274-1344 | decides between going on, failing and following, and counts the successful LOOKUPs before the failed one |
| Replies.CountSelectsLink | lib/nfs_v4.c:1328-1337 | for every pattern of links and every filler, the count is the number of names that lead to the first link |
| Symlink.BetweenSlashes | lib/nfs_v4.c:1360-1366 | the text between two counted slashes is exactly the counted name |
| Symlink.CutAfterLink | lib/nfs_v4.c:1346-1366 | the path of the READLINK leads to the link |
| Symlink.SpliceLink | lib/nfs_v4.c:1173-1216 | the rebuilt path has the link text in place of the link and fits the buffer that is allocated for it |
| Resolution.SplicedComponents | lib/nfs_v4.c:1211-1213 | its components are those before the link, the link text's, and those after the link |
| Resolution.SplicedEvaluation | lib/nfs_v4.c:1211-1223 | looking it up evaluates the link text from the link's directory and then the names after the link |
| Resolution.SplicedNotEmpty | lib/nfs_v4.c:1211-1223 | it never resolves to the empty text |
| Resolution.FinalLinkEvaluation | lib/nfs_v4.c:2312-2340 | for an open whose object is a link, the directory looked up next and the name opened in it are the link text evaluated from the directory of the open |
| Symlink.FollowOnce | lib/nfs_v4.c:1229-1393 | across both callbacks, the link that the server met is the one read and replaced |
| Resolution.SplicedResolves | lib/nfs_v4.c:1211-1223 | the rebuilt path resolves to where the path leads with the link followed, or to nothing when that leads nowhere |
| Symlink.ReadFirst | lib/nfs_v4.c:1346-1381 | the first compound looks up exactly the names that lead to the link, and the one operation behind GETATTR is READLINK |
| Symlink.FollowLink | lib/nfs_v4.c:1156-1427 | from a stored path: the first compound leads to the first link on it and ends in READLINK, the second looks up where the path leads with the link text in its place, or is refused exactly when that leads nowhere |
| Server.ExecCompound | lib/nfs_v4.c:1104-1149 | on every tree, a compound goes on behind its path exactly when the names lead somewhere, and stops at the first LOOKUP that fails, with the tree as it was |
| Server.MkdirMakes | lib/nfs_v4.c:1802-1809 | the compound of a mkdir makes an empty directory under its name in the directory that the names lead to, and changes nothing else, or is refused exactly when there is no such directory or the name is taken or empty |
| Server.RemoveRemoves | lib/nfs_v4.c:1882-1887 | the compound of a remove takes its name out of that directory and changes nothing else, or is refused exactly when it is not there or is a directory in use |
| Server.OpenOpens | lib/nfs_v4.c:2215-2287 | the compound of an open ends with the handle of the file of its name, made if that was asked for and it was not there |
| Server.GetFhGets | lib/nfs_v4.c:1444-1453 | ends with the handle of what the names lead to, and changes nothing |
| Server.ReaddirLists | lib/nfs_v4.c:3764-3777 | ends with the handle and the entries of the directory that the names lead to |
| Server.ReadlinkReads | lib/nfs_v4.c:1376-1377 | gives the text of the link that the names lead to, exactly when that is a link |
| Server.LookupReadlinkReads | lib/nfs_v4.c:2365-2374 | the same for a link with a name in the directory that the names lead to |
| Server.LinkLinks | lib/nfs_v4.c:3179-3191 | gives what the names lead to another name in the directory of the handle, exactly when that is possible |
| Server.RenameMoves | lib/nfs_v4.c:3312-3324 | moves the entry from the directory that the names lead to, to the directory of the handle: it is gone from the one, in the other, and every other entry is as it was |
| Effects.MkdirEffect | lib/nfs_v4.c:1802-1877 | a mkdir that is started makes the directory that its path names, as evaluated from the working directory |
| Effects.RemoveEffect | lib/nfs_v4.c:1882-1929 | a remove removes what its path names |
| Effects.OpenEffect | lib/nfs_v4.c:2430-2554 | an open or truncate opens what its path names |
| Effects.OpendirEffect | lib/nfs_v4.c:3764-3826 | an opendir lists the directory that its path leads to, resolved twice |
| Effects.NewDirEffect | lib/nfs_v4.c:3261-3308 | the first compound of a link or rename ends with the handle of the directory of the new path |
| Effects.RenameEffect | lib/nfs_v4.c:3326-3395 | the second compound of a rename moves what the old path names to the last name of the new path, in the directory of that handle |
| Effects.LinkEffect | lib/nfs_v4.c:3193-3253 | the second compound of a link gives what the old path leads to the last name of the new path, in the directory of that handle |
| Effects.ToldWhenDone | lib/nfs_v4.c:1229-1326 | a mkdir or remove tells the application that all went well exactly when the server has done it, and else the server's error unless a link is in the way |
| Effects.LinkRound | lib/nfs_v4.c:1156-1393 | on every tree with a link on the way: the request asks for the text of the first one, gets it, and looks up the path with that link followed, or ends when that leads nowhere |
| PageCache.PageRoundsDown | lib/libnfs.c:193-193 | masking an offset rounds it down to its page |
| PageCache.PutAllFresh | lib/libnfs.c:192-210 | a put of any length at any offset leaves every slot empty, expired or in step with what was written |
| PageCache.RunFresh | lib/libnfs.c:176-211 | so does every run of puts and invalidations with a clock that does not go back |
| PageCache.HitIsNeverStale | lib/libnfs.c:170-233 | after every such run a hit returns the last value put of every byte of the page since the last invalidation |
| PageCache.WholePageHits | lib/libnfs.c:198-206 | a whole page just put is found until it expires, whatever was in the slot |
| PageCache.HitsExactly | lib/libnfs.c:186-233 | after every run a page is found exactly when, by the events, it was put whole, not invalidated or displaced since, and kept from expiring |
| PageCache.PartialPutKeeps | lib/libnfs.c:198-206 | a part of a page put while it is there keeps it there, with the time of that put |
| PageCache.PageCache.Invalidate | lib/libnfs.c:176-184 | empties every slot |
| PageCache.PageCache.Put | lib/libnfs.c:186-211 | the loop over pages does to the slots what the run model says |
| PageCache.PageCache.Get | lib/libnfs.c:213-233 | returns the page the run model finds and changes nothing |
| PageCache.PageCache.Replay | lib/libnfs.c:176-211 | any puts and invalidations leave in the slots what the run model does |
| PageCache.PageCache.GetAfter | lib/libnfs.c:170-233 | after any events the cache returns a page exactly when it is there by them, and then the last value put of every byte of it |
| DirCache.MoveKeepsSeparate | lib/libnfs.c:108-168 | adding, finding and dropping keep every directory in one place and the cache bounded, and lose none |
| DirCache.NeverInTwoPlaces | lib/libnfs.c:108-168 | over every run each directory ever opened is cached, held or freed, and only one of these |
| DirCache.ReopenTakesLastClosed | lib/libnfs.c:133-157 | after every run, opening a directory takes the one with its handle that was closed last of those cached, and nothing exactly when there is none |
| DirCache.CloseEvictsFirstClosed | lib/libnfs.c:108-131 | when closing evicts a directory, it is the one of those cached that was closed first |
| DirCache.DirCache.ListRemove | include/slist.h:39-50 | walking the head pointer along the list unlinks exactly the item and restores the head |
| DirCache.DirCache.Add | lib/libnfs.c:108-131 | puts the directory in front; beyond 129 entries it frees the oldest and no other |
| DirCache.DirCache.Find | lib/libnfs.c:133-157 | unlinks and returns the newest directory with the handle, or null when there is none |
| DirCache.DirCache.Drop | lib/libnfs.c:159-168 | frees the newest directory with the handle, once |
| DirCache.DirCache.Serve | lib/libnfs.c:108-168 | any operations on the list lead where the run of their effects leads, each directory in one place |
| GoldenHash.GoldenWeights | include/hsfs/hash.h:21-22 | multiplying by the constant is the sum of seven shifts |
| GoldenHash.Mix | include/hsfs/hash.h:34-51 | the shifts and sums on 64-bit words are the multiplication modulo 2^64 |
| GoldenHash.Hash64 | include/hsfs/hash.h:34-55 | for 1 to 63 bits, the high bits of that product, below 2^bits |
| InodeCache.BucketIsHash | include/hsfs/hashtable.h:36-41 | the bucket of a key is its hash, so every bucket is in range |
| Inodes.NextNumberUnique | lib/hsfs_inode.c:210-215 | the number found does not depend on which number happens to be free |
| Inodes.FirstNumberIsOne | lib/hsfs_inode.c:206-218 | the first inode gets number one and no later one does, also after the counter wraps |
| Inodes.RootIsOne | nfs3/hsi_nfs3_mount.c:558-574 | mounting gives the root number one, as the source asserts, with the attributes of the reply |
| Inodes.NumberOfUnique | nfs_common/hsi_nfs_inode.c:228-246 | a file id and handle belong to one number at most |
| Inodes.FhGetKeeps | nfs_common/hsi_nfs_inode.c:294-403 | find-or-create keeps the cache in order, gives back a number of that file and changes no other file and no count |
| Inodes.FhGetTwice | nfs_common/hsi_nfs_inode.c:294-403 | asking again for a file gives the same number |
| Inodes.FhGetLearns | nfs_common/hsi_nfs_inode.c:294-403 | the file that is found or made has mode, links, owner, group and times of the reply, its size unless an offset cannot hold it, and as many 512-byte blocks as hold what is used unless that overflows; a known file of another type is left alone, and so is every other file |
| Inodes.ListingNumbers | nfs3/hsi_nfs3_readdir.c:207-238 | every entry of a listing gets the number of its own file |
| Inodes.StepSound | include/hsx_fuse.h:383-395 | every handler that does not abort keeps the balance of counts and every number's file id, handle and type |
| Inodes.CountsBalance | fuse/hsx_fuse_readdir.c:82-98 | over every run of init, lookup, create, readdirplus and forget a lookup count is what was handed out minus what was taken back, which is never negative |
| Inodes.ForgetWithinBounds | fuse/hsx_fuse_forget.c:31-39 | a forget finds its inode and passes the underflow assertion exactly when it takes no more than is outstanding modulo 2^64, so when less than 2^64 is, exactly when it takes no more than is outstanding; otherwise it aborts |
| Inodes.CreateIsFresh | fuse/hsx_fuse_mkdir.c:46-50 | the assertion of a create holds exactly when nothing is outstanding modulo 2^64 for the file it returns, so when less than 2^64 is, exactly when nothing is |
| InodeCache.FiledOneMore | include/hsfs/hashtable.h:69-70 | hash_add keeps every pointer in the bucket of its key and nothing else in the table |
| InodeCache.Super.constructor | nfs3/hsi_nfs3_mount.c:552-557 | an empty cache |
| InodeCache.Super.IdFind | lib/hsfs_inode.c:94-111 | finds the inode of a number, as a map would |
| InodeCache.Super.FhFind | lib/hsfs_inode.c:114-143 | finds the inode of a file id and handle exactly when there is one |
| InodeCache.Super.PickNumber | lib/hsfs_inode.c:210-215 | the do-while search ends and gives the next free number |
| InodeCache.Super.NewInode | lib/hsfs_inode.c:205-249 | the new inode is in both tables under the next free number, and nothing else changes |
| InodeCache.Super.Refresh | nfs_common/hsi_nfs_inode.c:988-1131 | after a reply for the same file and file type the inode has the attributes of the reply, each by name, and after any other it is unchanged |
| InodeCache.Super.FhGet | nfs_common/hsi_nfs_inode.c:294-403 | does to the tables what find-or-create does to the map; gives an inode exactly when the reply has attributes and links, and that inode has learned the attributes of the reply; pointers stay what they were |
| InodeCache.Super.RefInc | include/hsx_fuse.h:387-390 | adds one to a lookup count, in 64 bits |
| InodeCache.Super.Claim | include/hsx_fuse.h:383-386 | sets a lookup count to one and says whether it was zero |
| InodeCache.Super.Put | lib/hsfs_inode.c:307-316 | never releases an inode, because the use count was never raised |
| InodeCache.Super.FuseInit | fuse/hsx_fuse_init.c:76-77 | takes the abstract step |
| InodeCache.Super.FuseLookup | fuse/hsx_fuse_lookup.c:22-39 | takes the abstract step and tells the kernel the number |
| InodeCache.Super.FuseCreate | fuse/hsx_fuse_mkdir.c:34-50 | takes the abstract step, or aborts when it does |
| InodeCache.Super.FuseForget | fuse/hsx_fuse_forget.c:31-39 | takes the abstract step, or aborts when it does |
| InodeCache.Super.GetAll | nfs3/hsi_nfs3_readdir.c:207-238 | finds or creates the inode of every entry, in order, or stops at the first that fails |
| InodeCache.Super.Pack | fuse/hsx_fuse_readdir.c:82-98 | raises the count of exactly the entries that go into the reply |
| InodeCache.FitsExactly | fuse/hsx_fuse_readdir.c:82-98 | as many entries go out as leave room in the reply, and one more would not |
| InodeCache.Super.FuseReaddirPlus | fuse/hsx_fuse_readdir.c:53-112 | takes the abstract step for the entries that fit |
| InodeCache.Super.Serve | include/hsx_fuse.h:383-395 | any list of calls served by the tables and the handlers leaves the cache and the log of the abstract run, or ends at an assertion exactly when that run does |
| Callbacks.Nfs.Free | lib/nfs_v4.c:247-270 | frees live data once, with what it still owns, and unlocks the mutex it holds |
| Callbacks.Nfs.CheckError | lib/nfs_v4.c:329-366 | a bad reply ends the request with the code that stands for it, a good one changes nothing |
| Callbacks.Nfs.FindOp | lib/nfs_v4.c:368-387 | gives the first result of the kind, or ends the request with EINVAL exactly when there is none |
| Callbacks.Nfs.ResolveSplit | lib/nfs_v4.c:295-313 | the texts are directory and name of the resolved path, or it is refused, or the program strays on an empty text and on no other |
| Callbacks.Nfs.LookupPath | lib/nfs_v4.c:1395-1441 | on success the path is the resolved one and one callback is pending, on failure the request is as it was, and the program strays on an empty text and on no other |
| Replies.FindFailedLookup | lib/nfs_v4.c:1328-1344 | tells whether a LOOKUP failed on a link and counts those before it |
| Callbacks.Nfs.CutAndRead | lib/nfs_v4.c:1346-1392 | the link is read; the program strays exactly when the path has to be cut and has not more names than lead to the link, or has some but none leads to it |
| Callbacks.Nfs.Lookup1Cb | lib/nfs_v4.c:1229-1393 | for every reply goes where it says: a link on the path is read, an OPEN that failed on a link is followed, whatever the request was, a clean path leads into the next stage, anything else ends with its code |
| Callbacks.Nfs.Lookup2Cb | lib/nfs_v4.c:1156-1223 | looks up the path with the link text in place of the name the link was counted to, or ends with the code of a bad reply or EINVAL without a READLINK result; strays exactly when the path has fewer names |
| Callbacks.Nfs.FollowOpen | lib/nfs_v4.c:2379-2423 | takes over the request exactly when an OPEN failed on a link; with O_NOFOLLOW it reports and leaves the data, for an opendir the program strays, and any other request is an open from then on |
| Callbacks.Nfs.OpenReadlinkCb | lib/nfs_v4.c:2289-2362 | opens the name the link leads to in the directory it leads to, ends with the reply's code or EINVAL when it leads nowhere, and strays exactly when that text is empty |
| Callbacks.Nfs.OpenCb | lib/nfs_v4.c:2080-2190 | confirms, continues or hands the handle over, exactly when ACCESS was granted in full and GETFH and OPEN are there; the handle ends up with the application or is released, and one that was held already is lost only for a link or rename turned to an open |
| Callbacks.Nfs.OpenConfirmCb | lib/nfs_v4.c:2039-2078 | continues or hands the handle over, or ends with the reply's code |
| Callbacks.Nfs.OpenContinuation | lib/nfs_v4.c:1977-2037 | truncating or changing the mode after an open sends exactly one more request |
| Callbacks.Nfs.OpenSetattrCb | lib/nfs_v4.c:1956-1975 | ends; on success the handle is the application's |
| Callbacks.Nfs.LastCb | lib/nfs_v4.c:2673-2694 | ends with success or the reply's code |
| Callbacks.Nfs.Mount1Cb | lib/nfs_v4.c:1580-1611 | asks for the client id, or ends with the reply's code |
| Callbacks.Nfs.Mount2Cb | lib/nfs_v4.c:1537-1578 | confirms the client id or ends with the reply's code, and strays exactly on a good reply without results |
| Callbacks.Nfs.Mount3Cb | lib/nfs_v4.c:1503-1535 | starts the lookup of the resolved export, or ends with the reply's code |
| Callbacks.Nfs.Mount4Cb | lib/nfs_v4.c:1465-1501 | ends with success exactly when the reply is good and has a handle |
| Callbacks.Nfs.Link1Cb | lib/nfs_v4.c:3193-3253 | with a handle in a good reply, looks up the resolved old path, ends with EFAULT when it does not resolve, and strays exactly when it is the empty text |
| Callbacks.Nfs.Rename1Cb | lib/nfs_v4.c:3326-3395 | with a handle in a good reply, keeps the new name and looks up the directory of the old path, ends with EINVAL when that does not resolve, and strays exactly when it is the empty text |
| Callbacks.Nfs.ParseReaddir | lib/nfs_v4.c:3574-3706 | hands the directory over at its end, asks for more before, and ends with EINVAL when an entry does not parse |
| Callbacks.Nfs.OpendirCb | lib/nfs_v4.c:3708-3761 | as for a later part of the directory, once the reply has a handle |
| Callbacks.Nfs.Opendir2Cb | lib/nfs_v4.c:3551-3572 | as the READDIR result says, or ends with the reply's code |
| Callbacks.Nfs.ChdirCb | lib/nfs_v4.c:1661-1693 | on success the working directory is the path of the request, else it is what it was |
| Callbacks.Nfs.GetaclCb | lib/nfs_v4.c:2593-2633 | ends exactly when the reply is good and has attributes, and otherwise reports and frees twice |
| Callbacks.Nfs.OpenAsync | lib/nfs_v4.c:2430-2554 | a call that returns 0 leaves one request waiting at its first stage, with its directory and name and the mutex held; the mode is set behind the open exactly with O_EXCL, the file is cut exactly with O_TRUNC for writing without O_EXCL; one that returns -1 leaves nothing and the mutex as it was; when nothing runs out the path alone decides which, and whether the program strays |
| Callbacks.Nfs.TruncateAsync | lib/nfs_v4.c:3887-3925 | as for open |
| Callbacks.Nfs.CloseAsync | lib/nfs_v4.c:2696-2743 | as for open; on -1 the file stays with the caller |
| Callbacks.Nfs.MountAsync | lib/nfs_v4.c:1613-1659 | a call that returns 0 leaves one request waiting at its first stage with the normalised export, one that returns -1 none; when nothing runs out the export decides which |
| Callbacks.Nfs.NameAsync | lib/nfs_v4.c:1829-1929 | as for open, without the mutex, for mkdir, remove, link and rename |
| Callbacks.Nfs.OpendirAsync | lib/nfs_v4.c:3783-3826 | as for mount, with the path resolved twice |
| Callbacks.Nfs.ChdirAsync | lib/nfs_v4.c:1695-1725 | as for opendir; a call that returns -1 has been reported as well exactly when the path resolves and the allocation after the path's is the first to fail |
| Callbacks.Nfs.GetaclAsync | lib/nfs_v4.c:2635-2670 | a call that returns 0 leaves one request waiting, one that returns -1, which needs a failure, none |
| Callbacks.Nfs.Launch | lib/nfs_v4.c:272-325 | whatever is called, the requests of before are as they were and at most one is new, in the state the path decides; it holds the mutex exactly if it opens, truncates or closes and there are threads |
| RequestLaws.StumblesExactly | lib/nfs_v4.c:272-325 | a call strays exactly when it splits its path and that resolves to the empty text |
| Callbacks.Nfs.Deliver | lib/nfs_v4.c:1156-3925 | every reply whatsoever takes its request, with its texts, where the reply says or, when memory or a send fails, ends it with an error code; no other request changes; it is told that all went well, sends the next compound, leaks or strays exactly on the replies of `FineExactly`, `WaitsExactly`, `LeaksExactly` and `StraysExactly`; the working directory moves to the path of a chdir that is told so, and only then |
| RequestLaws.StraysExactly | lib/nfs_v4.c:1156-3925 | for every request and reply, the program strays exactly when a link or rename comes to an old path, or an open to a link, that resolves to the empty text; when the good reply to SETCLIENTID has no results; when an opendir is told of a link it did not ask to open; or when the reply puts a link outside of the path |
| RequestLaws.LeaksExactly | lib/nfs_v4.c:2379-2423 | for every request and reply, it is reported and never freed exactly when a lookup that went through or ended on a link has an OPEN that failed on a link, and the request has O_NOFOLLOW |
| ReplyLaws.FineExactly | lib/nfs_v4.c:1156-3925 | for every request and reply, the application is told that all went well exactly when no link is in the way and the first results of the kinds its stage needs say so: access granted, no confirmation wanted and nothing left to do for an open, the last part of a directory with entries that can be read for an opendir, a handle for a mount |
| ReplyLaws.WaitsExactly | lib/nfs_v4.c:1537-3706 | for every request and reply, the next compound without a path is sent, and waited for by which callback, exactly on these: an OPEN to be confirmed, a file to be cut or given its mode, a part of a directory that is not the last, the steps of a mount |
| ReplyLaws.LooksExactly | lib/nfs_v4.c:1395-1441 | for every request and reply, a path is looked up next, and for which stage, exactly when a link was read, an OPEN failed on one, or a stage has another path, and that path resolves |
| ReplyLaws.ReadsExactly | lib/nfs_v4.c:1268-1344 | for every request and reply, a link is read exactly when the last object is one or a LOOKUP failed on one that lies on the path, and the count kept is that of the names before it |
| ReplyLaws.BlamesExactly | lib/nfs_v4.c:329-366 | a reply that is lost, cancelled, late or carries an error ends its request with EFAULT, EINTR, EINTR or the server's error |
| ReplyLaws.FailsExactly | lib/nfs_v4.c:1173-3253 | for every request and good reply, an error other than EINVAL is told exactly when a path leads nowhere, a link cannot be found in the results, or the attribute of a getacl cannot be read |
| ReplyLaws.DeliveryTurns | lib/nfs_v4.c:1156-3925 | so every reply that was delivered looks up, reads and fails as these laws say, as far as nothing runs out |
| RequestLaws.FirstLinkRead | lib/nfs_v4.c:1229-1393 | whichever names on the path are links and whatever the filler adds, the request goes and reads the first of them |
| RequestLaws.FirstLinkFollowed | lib/nfs_v4.c:1156-1223 | the names it looks up next are those of the path with that link followed, or it ends with ENOMEM exactly when that leads nowhere |
| RequestLaws.LinkIsAnswered | lib/nfs_v4.c:1328-1366 | a server that answers what it was asked counts at least one name to the link and no more than the path has |
| RequestLaws.TameNeverStrays | lib/nfs_v4.c:1156-3925 | on a reply that answers what was asked, with no empty text to come and no getacl failing, the program does not stray |
| RequestLaws.TameStaysPlain | lib/nfs_v4.c:1156-3925 | after such a reply the request is what it was started as and a link it reads lies on its path |
| RequestLaws.StageStrays | lib/nfs_v4.c:295-313 | of the stages behind a lookup only those of link, rename and a followed open stray, exactly on the empty text; of the others only the second of a mount, exactly on a reply without results |
| RequestLaws.RebuiltNotEmpty | lib/nfs_v4.c:1211-1223 | the lookup of a path rebuilt around a link never strays, whatever the link |
| RequestLaws.MountFindsPath | lib/nfs_v4.c:1530-1534 | nor does the lookup of an export, also when it is normalised to the empty text |
| Replies.LinkIndexBound | lib/nfs_v4.c:1328-1337 | the names counted to a link are no more than the LOOKUPs answered, and fewer when one of them failed on it |
| RequestLaws.LookForMeans | lib/nfs_v4.c:1405-1427 | the names a request looks up are the evaluation of its path |
| RequestLaws.SplitMeans | lib/nfs_v4.c:295-313 | after a split, the names looked up and then the name of the object are the evaluation of the path; for the root the name is empty |
| Requests.GoesSoundly | lib/nfs_v4.c:1405-1410 | whatever a reply leads to, a path that is looked up is canonical |
| Requests.WentOk | lib/nfs_v4.c:1156-3925 | a request that went where a reply leads waits at a stage of its own operation, or of an open when it was made one, with the handles that stage needs, or has come to an end |
| RequestLaws.Progress | lib/nfs_v4.c:1156-3925 | apart from links and further parts of a directory every reply brings a request nearer to its end, and four are enough |
| Callbacks.Nfs.Run | lib/nfs_v4.c:1156-3925 | over every run, with every reply, each request waits for one callback unreported, or was reported once and freed once, or was refused, or is an open that leaked, or the one the program strayed on, which ends the run; the mutex is locked exactly while one request holds it, and the working directory is canonical |
| Callbacks.Nfs.RunTame | lib/nfs_v4.c:1156-3925 | over every run in which no call and no link comes to the empty text, every reply answers what was asked and no getacl fails, the program never strays and no request becomes another |
| Callbacks.Nfs.Quiet | lib/nfs_v4.c:2546-2553 | when nothing is under way and the program did not stray, all requests have ended and the mutex is free, but for opens that leaked |
| Callbacks.NoFollowLeaks | lib/nfs_v4.c:2398-2404 | an open with O_NOFOLLOW on a link leaves its data and the mutex behind, and no later open, truncate or close can start |
| Callbacks.OldDotStrays | lib/nfs_v4.c:3376-3384 | rename or link of "/." to "/x" is started, and the program strays on the first reply with nothing reported |
| Callbacks.DotLinkStrays | lib/nfs_v4.c:2312-2340 | an open of a link in the root with the text "." strays when the link is read, with nothing reported |
| Callbacks.GetaclStrays | lib/nfs_v4.c:2605-2609 | a getacl whose connection fails is reported and freed, and then the program strays |
| Callbacks.EmptyReplyStrays | lib/nfs_v4.c:1555-1556 | a mount whose SETCLIENTID is answered well but without a result strays, with nothing reported |
| Callbacks.ChdirToldTwice | lib/nfs_v4.c:1709-1721 | a chdir to "/" whose third allocation fails returns -1 and has been reported |
| Callbacks.MkdirTurned | lib/nfs_v4.c:2379-2423 | a mkdir told of a link at an OPEN waits for the link to be read, to be opened |
| Transfer.WriteTwice | fuse/hsx_fuse_write.c:35-51 | two adjoining writes are one write of both |
| Transfer.ReadTwice | fuse/hsx_fuse_read.c:31-49 | two adjoining reads are one |
| Transfer.ReadBack | fuse/hsx_fuse_write.c:35-53 | what was written is read back |
| Transfer.WriteElsewhere | fuse/hsx_fuse_write.c:35-53 | a write changes nothing outside its range, and a gap reads as zeros |
| Transfer.FuseWrite | fuse/hsx_fuse_write.c:24-53 | for every schedule of short counts the file is as after one whole write; after an error, as after writing a prefix |
| Transfer.FuseRead | fuse/hsx_fuse_read.c:17-51 | for every schedule the reply is the file from the offset to the end of the request or of the file |
| Readdir.BuildList | nfs3/hsi_nfs3_readdir.c:130-144 | the linked list holds the entries in order, each with the file id and cookie of the server's entry and its name or the first 255 characters of it |
| Readdir.Pack | fuse/hsx_fuse_readdir.c:143-153 | the reply is the longest run of entries that leaves room |
| Readdir.PackedFills | fuse/hsx_fuse_readdir.c:143-153 | a reply holds as many entries as leave room, and the next one would not |
| Readdir.FuseReaddir | fuse/hsx_fuse_readdir.c:133-156 | the reply to one call is copies of the entries from the cookie on, for every length of the server's answer |
| Readdir.OneReply | fuse/hsx_fuse_readdir.c:143-156 | each reply continues the listing, and is empty only at its end |
| Readdir.List | fuse/hsx_fuse_readdir.c:133-156 | asking from the last cookie until a reply is empty gives, in order and once each, copies of the entries before the first that is too big, however the server cuts its answers; with replies over 280 bytes and names of at most 255 characters it is the directory itself |
| Readdir.Complete | fuse/hsx_fuse_readdir.c:146-149 | that is the whole directory exactly when every entry is smaller than the reply, and always when replies exceed 280 bytes |
| Readdir.ListingIsDirectory | nfs3/hsi_nfs3_readdir.c:134-144 | a listing with replies over 280 bytes has every entry of the directory, and is the directory when no name is cut |
| Fattr.GetUgid | lib/nfs_v4.c:430-459 | the decimal value of an owner string of digits, else the known id or 65534 |
| Fattr.DecimalValue | lib/nfs_v4.c:436-458 | printing a number and reading its digits gives it back |
| Fattr.IdRoundTrip | lib/nfs_v4.c:4894-4917 | an id survives printing and parsing exactly when it is not negative |
| Fattr.CreateChownBuffer | lib/nfs_v4.c:4875-4923 | for every pair of ints the buffer holds both ids as XDR strings, a multiple of four bytes and at most half its size |
| Fattr.ChownIds | lib/nfs_v4.c:4875-4923 | the buffer read as owner and group gives back each id exactly when it is not negative |
| Fattr.ParseName | lib/nfs_v4.c:523-534 | reads one owner string and its padding |
| Fattr.ParseAttributes | lib/nfs_v4.c:467-581 | for every well-formed list of the standard bitmap, with anything behind it: size, number, links, space and times are the list's, the low bits of the mode are its mode and the type field tells its type, owner and group are the ids their strings stand for, and the blocks hold the space used unless that overflows |
| Fattr.Layout | lib/nfs_v4.c:473-575 | where each attribute lies in a list: its bytes, highest first, and strings with their length and padding |
| Fattr.EntryTypeIsType | lib/nfs_v4.c:3651-3672 | the type that a directory entry gets from the mode is the type in its list, for each of the seven known ones |
| Acl.EntryIsBytes | include/acl.h:90-94 | eight bytes hold an entry exactly when they are its encoding |
| Acl.EncodeLayout | include/acl.h:90-94 | the bytes of an ACL are the version 2 and then, for every entry, two bytes of tag, two of permissions and four of id, lowest first |
| Acl.ToXattr | nfs3/hsi_acl3.c:27-49 | tells the size without a buffer, refuses a short one untouched, else writes the encoding and nothing behind it |
| Acl.FromXattr | nfs3/hsi_acl3.c:56-116 | accepts exactly one or more whole entries behind the version, with tags 1, 2, 4, 8, 16 or 32, and gives for each the tag and permissions in its bytes, and the id for tags 2 and 8 and else the undefined one |
| Acl.DecodeEncoded | nfs3/hsi_acl3.c:27-116 | the encoding of a legal ACL is accepted and gives it back exactly when its unnamed entries have the undefined id |
| Acl.EncodeDecoded | nfs3/hsi_acl3.c:90-110 | accepted bytes encode to themselves but for the ids of unnamed entries |
| BlockSize.AndPredecessor | nfs3/hsi_nfs3_mount.c:451-451 | n & (n - 1) is zero exactly for powers of two |
| BlockSize.HighestBit | nfs3/hsi_nfs3_mount.c:454-455 | the countdown stops at the highest bit, or at 31 for everything from 2^31 on |
| BlockSize.BlockBits | nfs3/hsi_nfs3_mount.c:448-462 | the greatest power of two not above the size, exactly for sizes below 2^31 and for powers of two when no bit count is asked for |
| BlockSize.ClampedIsPower | nfs3/hsi_nfs3_mount.c:467-475 | a clamped size is a power of two |
| BlockSize.ClampedIsGreatest | nfs3/hsi_nfs3_mount.c:467-475 | a size from 1024 to 1048576 becomes the greatest power of two not above it, a smaller one 4096, a greater one 1048576 |
| BlockSize.Compute | nfs3/hsi_nfs3_mount.c:467-475 | for every input a power of two from 1024 to 1048576, not above an input that is at least 1024 |
| BlockSize.NegotiatedWithin | nfs3/hsi_nfs3_fsinfo.c:10-24 | sizes are positive and at most a megabyte, and within the server's maximum exactly when that is at least 1024 or the wanted size already is |
| BlockSize.NegotiatedIs | nfs3/hsi_nfs3_fsinfo.c:10-24 | a size that was asked for is kept where server and client allow it; otherwise it is the preferred one, or what the maximum is rounded to |
| BlockSize.SmallMaximum | nfs3/hsi_nfs3_fsinfo.c:15-18 | a server that allows 512 bytes is sent 4096 |
| BlockSize.Super.ValidateSizes | nfs3/hsi_nfs3_mount.c:507-530 | the block size is the power of two of its bit count and within limits; the transfer sizes follow the protocol |
| BlockSize.Super.FsinfoToSuper | nfs3/hsi_nfs3_fsinfo.c:7-43 | read and write sizes are the negotiated ones; the directory size is the least of the rounded preference, eight pages and the read size |

## Left out

- Sockets, the RPC transport, XDR code and FUSE replies: a send either fails or leads to one call of its callback, with an arbitrary reply.
- Symlink.FollowOnce: covers one link; the source sets no limit on the length of a chain of links, and splices an absolute link text behind the prefix like a relative one.
- RequestLaws.StraysExactly: an attribute list in a reply parses or is rejected; that a malformed owner length makes the source read outside of the list (lib/nfs_v4.c:523-534) is not modelled. Names and link texts in replies are C strings.
- Callbacks.Nfs.OpenCb: that a handle is lost is stated in one direction, with when it can happen.
- Callbacks.Nfs.ResolveSplit: the copies made in data_split_path are taken to succeed, because the source does not test them.
- Callbacks.Nfs.MountAsync: the copies of the server and the export are taken to succeed, because the source does not test them.
- Server.OpenOpens: the share access, the claim and the attributes of a new file are not modelled; the server refuses only what its tree does not allow, so permissions, quotas and other clients between two compounds are left out.
- Callbacks: the texts are values; how they are cut up in place and laid out in the compound is in `Compound` and `Symlink`. Stat64, append write, fcntl, mknod, chmod and chown; the values in replies that do not steer the chain; the sequence ids of opens.
- PageCache.PageCache.Put: a range that passes 2^64 is excluded; NFS_BLKSIZE is a parameter, a power of two.
- InodeCache.Super.FhGet: the search for a number when all of 2 to 2^64-1 are in use, which never ends in the source, is excluded.
- InodeCache.Super.Serve: runs with such a search are excluded with it.
- InodeCache.Super.Put: the use count is an unbounded integer, so its wrap-around after 2^31 puts is not modelled.
- InodeCache.Super.FuseLookup: the refresh of the parent's attributes is left out, as it changes no number and no count.
- InodeCache.Super.FuseReaddirPlus: the refresh of the parent's attributes, which can fail the call before any entry is seen, is left out.
- InodeCache: the hash chains are sequences rather than linked nodes; allocation failure and the transient new flag are left out, as are threads, for which the source marks its locks as missing.
- `hsx_fuse_link`, whose reply takes no lookup count.
- DirCache: the mutex around the list, and the freeing of the entries inside a directory.
- Transfer.FuseWrite: a server that takes no byte of a chunk is excluded, since the source would ask for ever.
- Transfer.FuseRead: a server that returns no byte and not the end of the file is excluded, since the source would ask for ever.
- Readdir.BuildList: allocation failure and the cookie verifier.
- Fattr.ParseAttributes: truncated or malformed lists are excluded; the source does not take the length of a name off the space it has left, so its later checks do not protect it there.
- Fattr.ParseName: truncated names are excluded for the same reason, and digit strings beyond an int.
- Fattr.GetUgid: digit strings beyond an int are excluded, as their sum overflows.
- Acl.ToXattr: the byte order is that of a little-endian host.
- `hash_32`, mount option parsing, mtab handling, NFSv3 dispatch, the synchronous wrappers and logging.
