# Perl's array body and string kernels, in Dafny

A model of the parts of the Perl 5 interpreter where correctness hangs on an
invariant that no single function shows:

- **The array body** (`perl/av.c`, `perl/av.h`, the `@_` macros of `perl/cop.h`). An array is
  an allocation, a start that moves, a fill and a max, and one of three states says what the
  slots mean: REAL arrays own a reference to each element, REIFY arrays borrow their elements
  but can be promoted, raw arrays do neither. Class `AvBody.AV` is the body itself, with the
  slots in a mutable buffer and the reference counts in an `Arena` that everything shares.
  `AvSpec` says what the operations mean for the visible elements and the counts, `AvLayout`
  where the fields go. `AvRun` composes operations into runs, `AvCost` counts the slots they
  move, `ArgArray` takes `@_` through a subroutine call.
- **The string kernels** (`perl/doop.c`). `Vec` and `VecStore` are `vec`, `Vop` the bitwise
  string operators, `Trans` the in-place byte `tr///`, `TransUtf8` its branch for UTF-8
  strings with a byte table, `TransSwash` the variants with a code point map and growing
  buffers. `Squash` says what `/s` does, `BitOps`, `Chunks`, `Utf8` and `PvBuffer` hold bit
  arithmetic, encoded characters, UTF-8 and the buffer of a string scalar.
- **Three smaller pieces**: `PvDisplay` (`perl/dump.c`), `Exec` (`perl/doio.c`) and the
  runlevels of `StackInfo` (`perl/cop.h`).

Scalars are opaque ids with a reference count; `&PL_sv_undef` is the placeholder `Undef`, which
is immortal and not counted. Bytes are the integers 0 to 255. A croak ends the operation and is
part of its result. What `dup2` returns, whether pointers are aligned, and the swash and codec
functions of the code point maps are parameters. Pointers are eight bytes, `long` is eight
bytes, and memory comes from the default allocator branch of `av_extend`.

## Findings

Properties one would expect that the code does not have. Each has an input and the exact
condition under which the property does hold.

| property | where | input | holds exactly when |
|---|---|---|---|
| the width-doubling law of `vec` at 64 bits | perl/doop.c:787, a shift of an `unsigned char` without the `UV` cast | `Vec.MissingCast` | `Vec.GetReadsField`, `Vec.GetDoubles`: not (five bytes are left and the last has its top bit set) |
| storing a field leaves disjoint fields alone | the same read, once the string has grown past it | `Vec.StoreUnclips` | `Vec.GetBesideSet` |
| the byte and UTF-8 branches of `tr///s` agree | perl/doop.c:170-172 keeps a run across a deletion, perl/doop.c:243-246 ends it | `TransUtf8.Disagrees` | `TransUtf8.BranchesAgree`: nothing squashed, nothing dropped, or nothing translated |
| `tr///cs` without replacements leaves a code point as it is | perl/doop.c:218-223 assigns it to an `I32` | any code point from 2^31 to 2^64 - 2^31 - 1 | `TransUtf8.LeftAsItIs` |
| `tr///s` with a code point map squashes runs and nothing else | perl/doop.c:490, 0xfeedface stands for "no code point" | `TransSwash.SentinelLost` | `TransSwash.SentinelExact`: no character is translated to that value |
| `do_vop` takes any target | perl/doop.c:1109-1110 clears a target that is the right operand alone; its callers at perl/pp.c:2222, 2245 and 2268 do not pass one | `Vop.RightAliasShows` | `Vop.RightAlias` |
| the result of `&=` ends in a NUL | perl/doop.c:1248-1251 writes none | `Vop.AndLeavesNoNul` | `Vop.DoVop`, last clause: there is a NUL in the left operand's buffer where the result ends |
| deleting from `@_` drops no reference the array does not own | perl/av.c:884-887 drops one with `G_DISCARD` whether or not the array owns its elements | `AvRun.DiscardStrays` | `AvRun.BorrowingLeavesCounts`: no counted element is discarded before promotion |
| after deleting the last element the array is empty or ends in an existing one | perl/av.c:873-878 trims placeholders but stops at a null | `AvSpec.NullStopsTrim` | `AvSpec.DeleteLeavesOthers`: the last non-placeholder is not null |
| `CLEAR_ARGARRAY` and `av_clear` leave the same fields | perl/av.c:483-484 returns early for an empty body and leaves the offset | `ArgArray.ClearsDiffer` | `ArgArray.ClearsAgree`: max was at least 0 or the offset was 0 |

Four more are visible in the contracts. `av_fill` within the allocation skips the readonly
check and does not promote (`AvBody.AV.Fill`). A store to the last element of a readonly array
croaks although nothing would grow (`AvBody.AV.Store`). `av_fetch` for a modifiable element
leaks the scalar it made when that store croaks (`AvBody.AV.Fetch`). In `pv_display` the cases
for tab, newline, carriage return and form feed cannot be reached, so those go out in octal.

## Model

| member | source | states |
|---|---|---|
| AvBody.AV.New | perl/av.c:381-391 | a new array is REAL, empty and has no allocation |
| AvBody.AV.Fake | perl/av.c:430-450 | av_fake borrows the elements, in order, touching no count, with one spare slot |
| AvBody.AV.Make | perl/av.c:404-427 | av_make owns distinct fresh scalars holding the values of the originals; no scalar in use changes and each new one has one reference |
| AvBody.AV.Extend | perl/av.c:94-197 | the elements and the slack invariant survive the overlapping slide and every reallocation; the fields move as the layout model says; nothing happens when there is room |
| AvBody.AV.Resize | perl/av.c:134-184 | the rounding loop ends with a max no smaller than requested and new slots that hold placeholders |
| AvBody.AV.Reify | perl/av.c:57-82 | from any borrowing state the visible elements stay, every counted element gains one reference per occurrence, and the full REAL invariant holds, slack included |
| AvBody.AV.Fetch | perl/av.c:213-279 | what is found is exactly an element that is not the placeholder nor, in a borrowing array, null or freed; on an array without nulls that is what exists() says; for lval a new scalar goes where nothing was found, and leaks when the array is readonly and the store croaks; every other element stays |
| AvBody.AV.Store | perl/av.c:299-370 | the value, or the placeholder for null, is at the returned slot, every other element where it was, placeholders in the gap; when it croaks and when it returns NULL; the replaced element loses its reference, the stored one keeps the caller's |
| AvBody.AV.Push | perl/av.c:551-574 | appends one element, promoting a borrowing array first; croaks exactly when readonly |
| AvBody.AV.Pop | perl/av.c:586-618 | takes the last element and leaves the counts alone, so a REAL array's reference passes to the caller; a placeholder from an empty array |
| AvBody.AV.Shift | perl/av.c:702-738 | takes the first element by moving the start, to the same effect |
| AvBody.AV.Unshift | perl/av.c:631-691 | the old elements follow the new ones in order; with slack reused unwritten the new ones are placeholders all the same on owning and promotable arrays, and stale slots on raw ones |
| AvBody.AV.Fill | perl/av.c:764-808 | the length asked for, elements kept and placeholders behind them; exactly the dropped elements of a REAL array are released; readonly is noticed only beyond the allocation |
| AvBody.AV.Delete | perl/av.c:819-889 | the element becomes a placeholder and the others stay or, at the end, it goes with exactly the placeholders before it; with G_DISCARD a reference is dropped in every array |
| AvBody.AV.ExistsAt | perl/av.c:902-955 | true for an element that is neither placeholder nor null, with negative subscripts from the end |
| AvBody.AV.Clear | perl/av.c:462-503 | a REAL array releases one reference per element; the start goes back to the allocation unless max is negative |
| AvBody.AV.Undefine | perl/av.c:514-539 | the same, and the allocation is gone |
| Scalars.OwnedOccurrences | perl/av.h:25-43 | a REAL array owns as many references to a scalar as the scalar occurs in it |
| AvSpec.DeleteLeavesOthers | perl/av.c:863-887 | deletion changes exists for no other index; the trim empties the array or ends at an existing element exactly when no null comes last |
| AvSpec.NullStopsTrim | perl/av.c:873-878 | an array left with a last element that does not exist |
| AvSpec.DeleteUndoesStore | perl/av.c:873-880 | storing past the end and deleting again gives the array back up to trailing placeholders |
| AvSpec.StoredReferences | perl/av.c:336-369 | which references a store takes and gives up, in each ownership state |
| AvSpec.FetchedElements | perl/av.c:252-279 | what a fetch finds, makes or patches, element by element |
| AvSpec.FetchedReferences | perl/av.c:258-275 | a fetch that makes no scalar changes no count; one that does leaves it one reference, stored or leaked |
| AvRun.Step | perl/av.c:57-82 | one operation on an owning or borrowing array acts on the elements as on a plain sequence and keeps the account of references |
| AvRun.RunConserves | perl/av.c:94-889 | the same after any number of operations: every count is what is held elsewhere plus, from promotion on, the occurrences in the array |
| AvRun.NothingLeaks | perl/av.c:514-539 | undefining the array after any run leaves exactly the references held elsewhere |
| AvRun.BorrowingLeavesCounts | perl/av.c:884-887 | while an array borrows, the counts stay as they are exactly when no operation discards a counted element |
| AvRun.DiscardStrays | perl/av.c:884-887 | a borrowed element whose only reference a discarding delete takes away |
| AvRun.Run | perl/av.c:94-889 | any run on the body itself keeps its invariant, refines the plain sequence and balances the references; whoever stores needs a reference to give away, at every point where a borrowing array may come to own its elements |
| AvRun.PopThenPush | perl/av.c:551-618 | an array may give up its only reference and take it back |
| AvLayout.RoundUpPow2 | perl/av.c:154-160 | the doubling loop lands on the next power of two |
| AvLayout.CapacityDoubles | perl/av.c:134-160 | a full block of 2^m - 2 slots regrows to twice that plus two |
| AvLayout.PushesAreAmortized | perl/av.c:94-197 | n pushes onto a new array copy at most 2n slots |
| AvLayout.UnshiftsAreAmortized | perl/av.c:660-690 | n unshifts of one element onto a new array move or copy at most 6n slots |
| AvCost.PushAll | perl/av.c:551-574 | the push bound on the body itself, for any scalars |
| AvCost.UnshiftAll | perl/av.c:631-691 | the unshift bound on the body itself |
| ArgArray.ClearArgArray | perl/cop.h:156-161 | the array is empty, its start is back at the allocation and no slot was written |
| ArgArray.ClearsAgree | perl/cop.h:156-161 | the macro and av_clear give the same elements and slots, and the same fields exactly when max was at least 0 or there was no offset |
| ArgArray.ClearsDiffer | perl/av.c:483-484 | a shifted array of one element for which they differ |
| ArgArray.PopSub | perl/cop.h:163-183 | an untouched argument array is reused; a reified one is replaced by an empty borrowing one with room for as many, and gives up its references unless it was captured |
| ArgArray.CallLeavesCounts | perl/cop.h:163-183 | a call that at most promotes its arguments leaves every count as it was |
| ArgArray.CallWith | perl/cop.h:163-183 | a call doing anything to its still borrowed arguments leaves exactly the account of the run, and an empty borrowing array |
| Vec.GetReadsField | perl/doop.c:713-844 | every branch reads the field of the string continued with zeros, unless the read is clipped, and what it gives then |
| Vec.MissingCast | perl/doop.c:787 | a clipped read |
| Vec.FieldDoubles | perl/doop.c:713-844 | little-endian inside a byte, big-endian across bytes |
| Vec.GetDoubles | perl/doop.c:713-844 | a field of 2w bits is its two halves, at every index and past the end; at 64 bits exactly when not clipped |
| Vec.GetAfterSet | perl/doop.c:851-929 | what was stored is read back modulo 2^w |
| Vec.FieldBesideSet | perl/doop.c:851-929 | fields of any width that share no bit with the stored one are unchanged |
| Vec.GetBesideSet | perl/doop.c:851-929 | do_vecget reads them as before, except exactly the clipped read that the string has outgrown |
| Vec.StoreUnclips | perl/doop.c:787 | a store that changes what a read of a disjoint field gives |
| Vec.SetShape | perl/doop.c:884-888 | the string grows to hold the field and no further, with zeros outside it |
| Vec.Refused | perl/doop.c:719-724 | a negative index reads as 0 and cannot be written; otherwise exactly the widths that are powers of two are accepted |
| Vec.SmallFields | perl/doop.c:713-844 | fields of eight bits are the bytes, fields of one bit their bits from the lowest up |
| VecStore.DoVecSet | perl/doop.c:851-929 | the stores into the buffer give the specified string; which arguments croak; a NUL follows if one did or the string grew |
| Vop.WordIsBytes | perl/doop.c:1200-1244 | an operation on words is the operation on each byte |
| BitOps.ApplyBit | perl/doop.c:1200-1267 | each bit of a result depends on the two bits at its place: both, one of them, exactly one |
| Vop.Loops | perl/doop.c:1200-1258 | the word loop and the remainder, with any aliasing, give what the byte loop gives |
| Vop.DoVop | perl/doop.c:1084-1272 | the pointwise result on the shorter length for &, on the zero-padded longer one for the others, with the target on either side; whether a NUL follows |
| Vop.RightAlias | perl/doop.c:1109-1110 | when clearing a target that is the right operand does not show |
| Vop.RightAliasShows | perl/doop.c:1109-1110 | operands for which it would |
| Vop.AndLeavesNoNul | perl/doop.c:1248-1251 | a result of & with no NUL behind it |
| Vop.XorTwiceIsPadding | perl/doop.c:1252-1267 | ^ twice with the same string gives the left one, zero-padded to the longer length |
| Squash.FeedSqueezes | perl/doop.c:159-174 | remembering the last translation squashes as comparing neighbours does |
| Trans.SquashBytes | perl/doop.c:159-174 | the two-cursor loop with its pointer test, in place, is the fold that squashes equal adjacent translations, deletions not ending a run |
| Trans.Complex | perl/doop.c:157-190 | the byte branch with and without /s, its NUL, and its count of translated and deleted bytes |
| Trans.Simple | perl/doop.c:46-57 | each byte is mapped or left alone, and the count |
| Trans.Count | perl/doop.c:112-116 | the count without translation |
| Trans.SquashTwice | perl/doop.c:159-174 | squashing again changes nothing |
| Trans.NoRunsLeft | perl/doop.c:159-174 | no two equal neighbours of a squashed character are left |
| Trans.MatchesOrStays | perl/doop.c:157-186 | translated and deleted bytes are counted, and every other one is a byte left alone |
| Trans.PlainLength | perl/doop.c:176-186 | without /s exactly the dropped bytes are missing from the result |
| Trans.DroppedUncounted | perl/doop.c:157-186 | entries below -2 drop bytes without counting them |
| Trans.TranslatedOne | perl/doop.c:157-186 | what the table makes of one byte, and whether it counts |
| Trans.PlainNext | perl/doop.c:176-186 | without /s bytes are translated one by one |
| Trans.SquashNext | perl/doop.c:159-174 | with /s a byte adds nothing exactly when the last byte that was not dropped was translated to the same |
| Trans.SquashFirst | perl/doop.c:159-174 | dropped bytes at the start leave nothing that a byte could repeat |
| TransUtf8.Complex | perl/doop.c:191-292 | the UTF-8 branch writes the encoding of the translated code points, all within twice the length plus one |
| TransUtf8.LeftAsItIs | perl/doop.c:218-223 | which code points survive being squashed without replacements |
| TransUtf8.HighOne | perl/doop.c:211-233 | a code point above 0xFF stays without /c, goes with /cd, is replaced with /c alone, and counts under /c |
| TransUtf8.ReplacedBy | perl/doop.c:218-220 | it becomes the replacement at its place or, past their end, the last one |
| TransUtf8.NotReplaced | perl/doop.c:218-264 | without replacements /s keeps its low 32 bits as a signed number, and otherwise it becomes 0 |
| TransUtf8.LowOne | perl/doop.c:234-247 | what the table makes of a code point up to 0xFF, and whether it counts |
| TransUtf8.OneByOne | perl/doop.c:251-281 | without /s code points are translated one by one, and they are always counted so |
| TransUtf8.SquashNeighbours | perl/doop.c:206-249 | with /s a code point adds nothing exactly when it and the one before it are translated, and to the same |
| TransUtf8.MatchesAgree | perl/doop.c:157-292 | both branches count the same, for every table |
| TransUtf8.BranchesAgree | perl/doop.c:157-292 | the two branches agree on every string below 0x100 exactly when nothing is squashed, dropped or translated |
| TransUtf8.Disagrees | perl/doop.c:157-292 | a deletion between two equal translations |
| TransUtf8.ResultDecodes | perl/doop.c:191-292 | the bytes of the one decode to the result of the other |
| Utf8.Forms | perl/utf8.c:77-110 | up to 0x10FFFF the encoding has the forms of section 3 of RFC 3629 |
| Utf8.LongForms | perl/utf8.c:87-162 | beyond that, lengths and first bytes up to thirteen bytes, the others being continuation bytes |
| Utf8.DecodeEncode | perl/utf8.c:57-162 | encoded code points are read back, up to the largest |
| TransSwash.Simple | perl/doop.c:336-377 | with the check after each write every write stays inside the allocation, which keeps UTF8_MAXLEN bytes past the mark through every Renew; output and count |
| TransSwash.UnmappedStays | perl/doop.c:336-377 | a text without mapped characters comes back as it is, with no match, from all three functions |
| TransSwash.SimplyNext | perl/doop.c:345-364 | what one more character adds: its translation, itself, the final code point or nothing; and to the count |
| TransSwash.SimpleIsComplex | perl/doop.c:336-579 | without /d the two functions write the same, and count the same but for characters that both drop |
| TransSwash.ComplexPlain | perl/doop.c:545-579 | the same with the check before each write |
| TransSwash.PlainNext | perl/doop.c:545-579 | what one more character adds, deleted ones being counted |
| TransSwash.ComplexSquash | perl/doop.c:489-544 | the same when squashing |
| TransSwash.SquashedNext | perl/doop.c:489-544 | a translated character adds nothing exactly when the last one that was not deleted went to the same code point |
| TransSwash.SquashedFirst | perl/doop.c:489-544 | the first one adds its translation, an unmapped one itself, a deleted one nothing |
| TransSwash.DeletionsKeepRuns | perl/doop.c:541-542 | deleted characters leave no trace in a squashed result |
| TransSwash.SentinelExact | perl/doop.c:489-544 | every string is squashed cleanly exactly when no character is translated to 0xfeedface |
| TransSwash.SentinelLost | perl/doop.c:490-509 | such a character is lost at the start of a string |
| PvDisplay.Print | perl/dump.c:108-144 | the loop writes the specified text |
| PvDisplay.ReadDisplay | perl/dump.c:113-139 | a reader of the escapes gets the string back, or when truncated the part that was shown |
| PvDisplay.DisplayWithin | perl/dump.c:115-141 | with a limit the text is at most nine bytes longer |
| PvDisplay.EscapeIs | perl/dump.c:119-138 | a printing character stands for itself, quote and backslash behind a backslash, others in octal: three digits before a digit, otherwise as few as it takes |
| PvDisplay.DisplayEnds | perl/dump.c:113-143 | the text is cut at the first character that finds the limit reached and nowhere else; then the quote, dots if it was cut, and the mark of a NUL |
| Exec.DirectWhen | perl/doio.c:1518-1557 | the condition for running without a shell in terms of the first metacharacter |
| Exec.DirectIs | perl/doio.c:1518-1557 | a command runs without a shell, as far as cut, exactly when it asks for none and has no metacharacter up to a final newline or a final white space, 2>&1 and white space that dup2 has carried out |
| Exec.MetaNeedsShell | perl/doio.c:1530-1556 | any other metacharacter sends it to the shell, wherever it stands |
| Exec.AsksIs | perl/doio.c:1520-1528 | ". file", "exec command" and "name=value" at the start |
| Exec.CharClasses | perl/doio.c:1531-1532 | the metacharacters, the white space and the characters of a name, one by one |
| Exec.DoExec | perl/doio.c:1518-1570 | the shell gets the command untouched; otherwise argv holds the words of the trimmed command in order, as C strings, then a null pointer, within the array |
| Exec.DirectWordsAreClean | perl/doio.c:1530-1570 | no word is empty or holds white space or a metacharacter |
| Exec.ArgvFits | perl/doio.c:1559-1570 | the words and the null pointer fit in length / 2 + 2 |
| Exec.NothingLost | perl/doio.c:1562-1569 | splitting loses nothing but white space |
| Exec.WordsBlank | perl/doio.c:1561-1569 | white space at the end adds no word |
| Exec.WordsNext | perl/doio.c:1561-1569 | a run of other characters behind white space, or at the start, is one word more |
| StackInfo.Interp.constructor | perl/perl.c:3525-3533 | one runlevel of type MAIN |
| StackInfo.Interp.Push | perl/cop.h:535-549 | a new top runlevel with no context and an empty stack; the node left behind earlier is reused, and only otherwise is one added |
| StackInfo.Interp.Pop | perl/cop.h:555-566 | back to the runlevel below with its context index and stack pointer; exits when there is none |
| StackInfo.Interp.PopTo | perl/cop.h:568-574 | ends at the target exactly when that is on the prev chain, leaving the runlevels up to it as they were |
| StackInfo.Run | perl/cop.h:535-574 | any run of PUSHSTACKi, POPSTACK and POPSTACK_TO is a run on a plain stack of runlevels; the chain stays, has as many nodes as there were runlevels at once, and a run back at its height is back at its node |
| StackInfo.BalancedRestores | perl/cop.h:535-574 | from entering a runlevel to leaving it again, whatever happens in between, nothing below changes |

## Left out

- Tied and magical arrays and elements, `AvARYLEN`, null receivers: they call into code that is not part of this model.
- Destructors that re-enter an array while it is cleared, and the stack pointer fixups when `PL_curstack` itself grows.
- Other allocators (`MYMALLOC`, `STRANGE_MALLOC`), allocation failure, and reuse of an address.
- `I32`, `STRLEN` and pointer overflow: lengths, offsets and counts are unbounded.
- AvRun.Run: raw arrays, with neither flag, take part in no counting and are covered by the single operations only.
- AvRun.RunConserves: makes no statement about operations on readonly arrays, which croak or leave the array alone as the single contracts say.
- Trans.Complex: the tables are arguments; how `perl/op.c` builds them is not part of this model.
- TransUtf8.Complex: the source is well-formed UTF-8 and the result may grow; overwriting the string itself, without the grows flag, is not modelled.
- TransSwash.Simple: swash_fetch and the codec are parameters; the upgrade of a byte string before the loop is taken as done.
- Vop.DoVop: the branch for UTF-8 operands, undefined operands other than as empty strings, and taint.
- VecStore.DoVecSet: the downgrade of a UTF-8 string before the bytes are used.
- Utf8.DecodeEncode: malformed input; and with warnings enabled the decoder refuses surrogates, code points ending in FFFE or FFFF and the first bytes FE and FF, which this one reads.
- Exec.DoExec: the csh shortcut, the system calls themselves, and the second attempt with a shell after ENOEXEC.
- StackInfo.Interp.PopTo: unwinding a context resets the context index; what else leaving a block does is not part of this model.
- StackInfo.Interp.Push: the contents of the argument stacks and their growth.
- The rest of `perl/doop.c` (chop, chomp, join, sprintf, keys), `perl/doio.c`, `perl/dump.c` and `perl/cop.h`.
