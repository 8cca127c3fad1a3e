# litenvm core, modelled in Dafny

litenvm is a small object-oriented stack virtual machine written in C. A
program is a constant pool together with an instruction stream. The pool's
entries (numbered from 1) describe classes, fields, methods and string
constants. Each instruction is an 8-bit opcode plus a 32-bit operand. The
executor runs these instructions over four structures:

- an operand stack of tagged values (32-bit integers or object references);
- a call stack of frames, each holding the method's variables and its return address;
- a heap of objects;
- per-class virtual-method tables, which are open-addressing hash tables from method name to pool index.

This project models that core as pure Dafny functions over immutable data
and proves properties about them. Each module follows one source file:

| module | file | models |
|---|---|---|
| `Results` | results.dfy | the `Result`/`Option` wrappers and the fault kinds the model reports where the C code has undefined behaviour |
| `Values` | values.dfy | an operand-stack element (`EvalStackElement`) |
| `CStrings` | cstrings.dfy | the texts a NUL-terminated `char` array can hold |
| `GrowableStack` | stack.dfy | `stack.c`: a stack whose capacity doubles when full and halves when a quarter full |
| `CallStacks` | callstack.dfy | `callstack.c`: the stack of frames |
| `Instructions` | instructions.dfy | the opcodes of `instruction.h` |
| `Int32` | int32.dfy | two's-complement reading of operands, and C's truncating division |
| `Objects` | objects.dfy | `object.c`: a heap of objects, each a class tag plus a fixed number of slots |
| `StringClass`, `StringBuilderClass`, `ObjectRelease` | string_class.dfy, string_builder_class.dfy, object_release.dfy | the two built-in classes, and `object_free` |
| `VTables` | vtable.dfy | `vtable.c`: hashing, linear probing, put, get and exists, each checked against a reference lookup |
| `ConstantPools`, `PoolExamples` | constantpool.dfy, constantpool_examples.dfy | `constantpool.c`: entries, and the vtable construction of `constantpool_compute_vtables` |
| `Executor`, `ExecutorProperties` | executor.dfy, executor_properties.dfy | `executor.c`: one `Step` per instruction, `Run` for `executor_step_all`, and one lemma per opcode |
| `Programs` | programs.dfy | the factorial and max programs of the executor tests, proved for every argument |
| `BinaryFormat` | binary_format.dfy | `binary_format.c`: the big-endian file layout of pools and instruction streams, with round-trip proofs |

Faults replace the C code's undefined behaviour: popping an empty stack, a
bad pool index, division by zero, signed overflow, a field access on a
non-object, a variable or field index outside the frame or object
(`BadSlot`), a program counter past the end of the code, a full vtable, and
truncated or malformed input. Faults also stand in two places where the C
code reinterprets a union and so has an implementation-defined outcome: an
arithmetic or ordering opcode on an object reference (the C computes on the
pointer's bits), and a pool entry of the wrong kind (the C reads its payload
as the kind it expects). The model's heap addresses and pool entries carry
no bit-level layout, so those outcomes cannot be reproduced; "## Left out"
names the members concerned, together with every other place where the
model departs from the C code.

Strings are the texts of C strings: every character is one non-NUL byte
(`CStrings.IsText`). `string_new`, `concat_string` and the file format
require that of the texts they take, as `strlen`, `strcpy` and `strcat`
see only what precedes the first NUL.

Points where the source files leave a choice open, and how the model
settles each:

- **CALL.** `executor.c` (80-98, 207-209) calls the method entry named by
  the operand directly, so vtables are built and queried but never
  consulted by CALL.
- **vtable_new.** `vtable.c` declares `vtable_new` with a class argument,
  while `constantpool.c` and the tests pass a slot count (`methods * 2`).
  The model takes a length.
- **Table copying and size.** `vtable_copy` and `vtable_size` appear only in
  the tests. They are modelled from what the tests expect.
- **Animal/Dog/Cat sizes.** The first `constantpool_compute_vtables` test
  expects sizes that need a `virtual` flag on methods. `constantpool.h` has
  no such flag, so the model puts every method of a class into its table.
- **Jump opcodes.** `JUMP_BIT` is not defined anywhere. The model treats
  opcodes 11 to 17 (`JUMP` to `JUMP_GE` in `instruction.h`) as the jumps.

## Model

| member | source | states |
|---|---|---|
| GrowableStack.New | core/src/stack.c:17-25 | a new stack is empty with capacity `min`, and it satisfies the capacity invariant and the balance rule |
| GrowableStack.Push | core/src/stack.c:34-44 | the element goes on top and nothing below it changes; the capacity doubles exactly when the stack was full and is otherwise unchanged |
| GrowableStack.Top | core/src/stack.c:46-49 | returns the last pushed element; underflow exactly when the stack is empty |
| GrowableStack.Pop | core/src/stack.c:51-59 | removes exactly the top element; the capacity halves exactly when the new length is non-zero, at least min/2, and a quarter of the capacity; underflow on an empty stack |
| GrowableStack.ShrinksAt | core/src/stack.c:55-58 | the shrink condition of `stack_pop` on the length after the decrement; its effect on the capacity is stated by `GrowableStack.Pop`, and `GrowableStack.DrainToMinimum` shows it brings an emptied stack back to `min` |
| GrowableStack.DoublingAtLeastMin | core/src/stack.c:36-39 | a capacity reached from `min` by doubling is at least `min` |
| GrowableStack.DoublingAtLeastTwice | core/src/stack.c:36-39 | such a capacity, if it is not `min` itself, is at least twice `min` |
| GrowableStack.PushValid | core/src/stack.c:34-44 | push preserves the invariant: length at most capacity, and capacity a doubling of `min` |
| GrowableStack.PopValid | core/src/stack.c:51-59 | pop on a non-empty stack preserves the same invariant |
| GrowableStack.PushBalanced | core/src/stack.c:34-44 | push keeps a grown stack more than a quarter full |
| GrowableStack.PopBalanced | core/src/stack.c:51-59 | pop keeps a grown stack more than a quarter full, for `min` of at least 2 |
| GrowableStack.PushAll | core/test/stack_test.c:33-55 | pushing a list appends exactly that list, in order |
| GrowableStack.PushAllCapacity | core/src/stack.c:36-39 | after pushing a list, the capacity is the first doubling of the old capacity that holds every element |
| GrowableStack.PushAllValid | core/src/stack.c:34-44 | a sequence of pushes preserves the invariant and the balance rule |
| GrowableStack.Drain | core/test/stack_test.c:33-55 | `n` pops succeed iff `n` is at most the length; they return the top `n` elements in reverse push order and leave the prefix |
| GrowableStack.DrainToMinimum | core/src/stack.c:51-59 | emptying a valid, balanced stack brings its capacity back to `min` |
| GrowableStack.PushThenDrain | core/test/stack_test.c:33-55 | pushing a list and popping as many elements gives the list back reversed and restores the contents |
| GrowableStack.FiveHundredOnePushes | core/test/stack_test.c:33-55 | from capacity 8, 501 pushes reach capacity 512, and popping them all returns to 8 |
| CallStacks.New | core/src/callstack.c:3-6 | a new call stack has no frames |
| CallStacks.Push | core/src/callstack.c:13-16 | the frame goes on top, and `Top` then returns it unchanged |
| CallStacks.Top | core/src/callstack.c:18-21 | returns the newest frame; underflow exactly when there is none |
| CallStacks.Pop | core/src/callstack.c:23-26 | removes exactly the newest frame; underflow exactly when there is none |
| CallStacks.SetTop | core/src/executor.c:167-170 | replaces only the newest frame, which is how a write through the top frame's variable array behaves; fails exactly on an empty stack |
| CallStacks.FramesUnwindInReverse | core/test/callstack_test.c:35-57 | frames pushed with return addresses 0..n-1 pop in the order n-1..0, and the stack ends empty |
| CallStacks.FramesGrowAndShrink | core/test/callstack_test.c:35-57 | 501 frames grow the capacity from 8 to 512, and popping them all returns it to 8 |
| Int32.FromU32 | core/src/executor.c:152-154 | the operand read as a signed 32-bit value: in range, congruent to the operand modulo 2^32, and non-negative iff the operand is at most 2^31-1 |
| Int32.ToU32 | core/test/executor_test.c:441-446 | a signed value stored into an unsigned operand is below 2^32 and congruent to it modulo 2^32 |
| Int32.SignedRoundTrip | core/test/executor_test.c:441-446 | storing a signed value as an operand and reading it back gives the value |
| Int32.UnsignedRoundTrip | core/src/executor.c:152-154 | every unsigned operand is the storage of the signed value it is read as |
| Int32.TruncDiv | core/src/executor.c:36-39 | C division truncates: the quotient's magnitude is the quotient of the magnitudes, and it is negative only when the operand signs differ |
| Int32.TruncDivRemainder | core/src/executor.c:36-39 | the remainder left by truncating division is smaller than the divisor in magnitude and never has the opposite sign of the dividend |
| Int32.TruncDivExamples | core/test/executor_test.c:105-151 | 50 / 25 is 2, and mixed-sign quotients round toward zero |
| Objects.Alloc | core/src/object.c:9 | the new address was not in use, and only that cell is added |
| Objects.Release | core/src/object.c:25 | removes exactly the named cell and keeps the heap valid |
| Objects.ObjectNew | core/src/object.c:7-12 | a fresh object tagged with the class, with the given number of slots, and no existing cell changed |
| Objects.GetClass | core/src/object.c:30-33 | succeeds iff the address holds an object; `NotAnObject` otherwise |
| Objects.GetField | core/src/object.c:35-38 | succeeds iff the reference is an object and the slot index is below its field count |
| Objects.SetField | core/src/object.c:35-38 | succeeds under the same conditions, changes no other cell, and keeps the set of addresses |
| Objects.NewObjectShape | core/src/object.c:7-12 | after `object_new`, `object_get_class` gives the tag, every slot below the count reads as zero, and the slot at the count does not exist |
| Objects.SetThenGet | core/src/object.c:35-38 | reading the slot just written gives the written value, while every other slot and every class tag is unchanged |
| Objects.FieldCountFixed | core/src/object.c:7-12 | writing a slot never changes which slots an object has |
| StringClass.GetValue | core/src/string_class.c:22-25 | the text held in the string's buffer |
| StringClass.StringNew | core/src/string_class.c:8-14 | for the text of a C string, a fresh `String` whose one slot references a fresh buffer holding the text; `string_get_value` returns that text; no existing cell changes |
| StringClass.StringFree | core/src/string_class.c:16-20 | removes exactly the string object and its buffer |
| StringClass.ValueIsPrivate | core/src/string_class.c:8-14 | writing any cell other than the string or its buffer leaves the string's value alone |
| StringClass.FreeKeepsOthers | core/src/string_class.c:16-20 | freeing one string leaves the value of every other string with its own buffer intact |
| StringBuilderClass.New | core/src/string_builder_class.c:10-15 | a fresh `StringBuilder` that holds a fresh empty `String`; no existing cell changes |
| StringBuilderClass.ConcatString | core/src/string_builder_class.c:23-33 | for two C-string texts, a fresh string holding the left text followed by the right; the temporary buffer is gone, so exactly two cells are added |
| StringBuilderClass.AppendText | core/src/string_builder_class.c:35-42 | the builder's text becomes the old text plus the suffix; the previous `String` and its buffer are freed and a fresh one is installed; nothing else changes |
| StringBuilderClass.AppendString | core/src/string_builder_class.c:35-42 | appends the argument string's value; the argument survives unless it was the builder's own string |
| StringBuilderClass.Decimal | core/src/string_builder_class.c:44-53 | base-10 text of a 32-bit integer: non-empty, with a leading '-' iff the value is negative |
| StringBuilderClass.DigitsRoundTrip | core/src/string_builder_class.c:44-53 | parsing the digit text of a natural number gives the number back |
| StringBuilderClass.DigitsCanonical | core/src/string_builder_class.c:44-53 | the digit text has no leading zero except for the number 0 |
| StringBuilderClass.DecimalRoundTrip | core/src/string_builder_class.c:44-53 | parsing the decimal text of an integer, sign included, gives the integer back |
| StringBuilderClass.AppendInt | core/src/string_builder_class.c:44-53 | the text becomes the old text plus the decimal text of the integer |
| StringBuilderClass.AppendBool | core/src/string_builder_class.c:55-62 | the text becomes the old text plus "true" for a non-zero value, or "false" for zero |
| StringBuilderClass.ToString | core/src/string_builder_class.c:64-67 | returns the builder's current `String` object itself, whose value is the built text |
| StringBuilderClass.BuilderFree | core/src/string_builder_class.c:17-21 | removes exactly the builder, its `String` and that string's buffer |
| StringBuilderClass.DecimalOneTwoThree | core/src/string_builder_class.c:44-53 | 123 prints as "123" |
| StringBuilderClass.HelloTrue123 | core/src/string_builder_class.c:35-62 | appending "Hello!", the bool 1 and the int 123 to an empty builder gives "Hello!true123" |
| ObjectRelease.ObjectFree | core/src/object.c:14-28 | frees exactly what the object owns: a `String` and its buffer; a `StringBuilder`, its `String` and that buffer; otherwise the object alone |
| ObjectRelease.FreeUndoesObjectNew | core/src/object.c:7-28 | freeing a plain object just created restores the heap |
| ObjectRelease.FreeUndoesStringNew | core/src/string_class.c:8-20 | freeing a string just created restores the heap |
| ObjectRelease.FreeUndoesBuilderNew | core/src/string_builder_class.c:10-21 | freeing a builder just created restores the heap |
| VTables.Hash | core/src/vtable.c:83-96 | the home slot of a name is below the table length |
| VTables.Wrap | core/src/vtable.c:34-37 | the probe's next slot stays inside the table; `VTables.WrapIsModulo` proves it is `(index + 1) % length` |
| VTables.HashSumIsHorner | core/src/vtable.c:83-96 | the power sum over the characters equals Java's `h = 31*h + c` recurrence |
| VTables.WrapIsModulo | core/src/vtable.c:34-37 | the probe step moves to `(index + 1) % length` |
| VTables.Probe | core/src/vtable.c:41-60 | the probe stops at the slot holding the name, or at the first empty slot, and every slot it passes holds some other name |
| VTables.New | core/src/vtable.c:7-14 | a table of the requested length with every slot empty: valid, size 0, every lookup 0 |
| VTables.Get | core/src/vtable.c:62-81 | returns a non-zero index only for a name that is in the table |
| VTables.Exists | core/src/vtable.c:41-60 | returns true only for a name that is in the table |
| VTables.Put | core/src/vtable.c:23-39 | the corrected put keeps the length, and any slot it changes holds the new entry |
| VTables.RoomIffEmptySlot | core/src/vtable.c:27-38 | a table has an empty slot iff it holds fewer entries than slots, which is when the insertion loop ends |
| VTables.LookupIffHas | core/src/vtable.c:41-60 | in a table without duplicate names, the reference lookup is non-zero iff some occupied slot holds the name |
| VTables.SizeIsKeyCount | core/test/vtable_test.c:59-69 | the size of a valid table is the number of distinct names it binds |
| VTables.Size | core/test/vtable_test.c:9-14 | the number of occupied slots, never more than the length; `VTables.SizeIsKeyCount` shows it is the number of distinct names bound, and `VTables.PutFound`/`VTables.PutVacant` give its change on a put |
| VTables.ExhaustedProbe | core/src/vtable.c:41-60 | a probe that visits every slot means the name is absent and no slot is empty; that is the only case in which the C loops never end |
| VTables.ProbeStops | core/src/vtable.c:41-60 | if the name is present or some slot is empty, the probe stops at a slot |
| VTables.VacantMeansAbsent | core/src/vtable.c:47-50 | in a valid table, reaching an empty slot proves the name is absent |
| VTables.GetIsLookup | core/src/vtable.c:41-81 | on a valid table, get and exists agree with the reference lookup |
| VTables.PutFound | core/src/vtable.c:23-39 | replacing a bound name keeps the table valid and its size unchanged |
| VTables.PutVacant | core/src/vtable.c:23-39 | inserting a new name keeps the table valid and grows the size by one |
| VTables.PutSpec | core/src/vtable.c:23-39 | after a put with room: the table is valid, the name maps to the new index, every other name keeps its binding, and the size grows by one iff the name was new |
| VTables.CopyEntries | core/test/vtable_test.c:105-119 | copying entries keeps the destination's length, and a full destination is the only failure |
| VTables.Copy | core/test/vtable_test.c:105-119 | the copy has the destination's length, and a full table is the only failure |
| VTables.CopyEntriesFits | core/test/vtable_test.c:105-119 | the copy succeeds when the destination has room for every new name |
| VTables.CopyEntriesLookup | core/test/vtable_test.c:105-119 | after copying, each copied name maps to its source index and every other name keeps the destination's binding |
| VTables.CopyEntriesSize | core/test/vtable_test.c:105-119 | when the copied names are distinct and none is bound in the destination, the size grows by their number |
| VTables.CopyIntoEmpty | core/test/vtable_test.c:105-119 | copying into an empty table with room succeeds and gives a valid table with the same lookups and the same size |
| VTables.PutAsWritten | core/src/vtable.c:23-39 | put as written: the entry lands in the first empty slot of the probe, even when the name is already bound earlier |
| VTables.ReplaceAsWrittenFails | core/test/vtable_test.c:59-69 | putting "abc" twice into a 4-slot table as written leaves get answering the first index, size 2 and a duplicate name; the corrected put answers the second index with size 1 |
| VTables.OverrideAsWrittenAt | core/src/vtable.c:23-39 | for two distinct names with home slot 4 in a 10-slot table, putting the first, the second, then the first again as written leaves get answering the first index and the size at 3 |
| VTables.OverrideCorrectedAt | core/src/constantpool.c:63-66 | with the corrected put, the same three puts for any two distinct names leave get answering the override's index and the size at 2 |
| VTables.OverrideAsWrittenFails | core/src/constantpool.c:63-66 | Car's table in the depth-three pool built with the put as written answers 2 for "hasEngine" with size 3; built with the corrected put it answers 5 with size 2, as the test expects |
| VTables.HashCollision | core/test/vtable_test.c:71-81 | "A" and "E" share home slot 1 in a 4-slot table |
| ConstantPools.New | core/src/constantpool.c:4-10 | a pool of the given length with no entry set |
| ConstantPools.Get | core/src/constantpool.c:37-40 | succeeds iff the index is between 1 and the length and that entry is set |
| ConstantPools.Add | core/src/constantpool.c:32-35 | succeeds iff the index is between 1 and the length, and keeps the length |
| ConstantPools.AddThenGet | core/src/constantpool.c:32-40 | get after add at the same index returns the entry, and every other index is unchanged |
| ConstantPools.ResolvedStep | core/src/constantpool.c:63-69 | a method entry of the class extends the class's bindings with (name, index), and any other entry leaves them as they were |
| ConstantPools.NothingDeclaredBefore | core/src/constantpool.c:42-71 | in a well-ordered pool, no method of a class is declared at or before the class's own index |
| ConstantPools.ResolvedGrows | core/src/constantpool.c:63-69 | bindings only accumulate along the pool |
| ConstantPools.OwnBindingsWin | core/src/constantpool.c:50-69 | a class's binding for a name is its own declaration if it has one, and otherwise the nearest inherited one |
| ConstantPools.TableOf | core/src/constantpool.c:63-69 | the vtable of a class that comes before the current entry and already has one; `BadPoolRef` otherwise |
| ConstantPools.Visit | core/src/constantpool.c:48-69 | visiting one entry, with the corrected `VTables.Put` for a method (admitted under Left out), changes only the class it targets, leaving a parent table untouched when a subclass copies it; faults only on a bad reference or a full table |
| ConstantPools.Pass | core/src/constantpool.c:46-70 | the loop over all entries keeps every entry's kind and index data |
| ConstantPools.ComputeVTables | core/src/constantpool.c:42-71 | the pool keeps its shape, and the only faults are a bad reference and a full table |
| ConstantPools.VisitClassOwn | core/src/constantpool.c:50-62 | a class's new table holds its parent's bindings, which are all the bindings it has at its own index |
| ConstantPools.VisitClass | core/src/constantpool.c:50-62 | visiting a class gives it a valid table that agrees with its resolved bindings so far, and keeps every other class's agreement |
| ConstantPools.VisitMethod | core/src/constantpool.c:63-69 | visiting a method puts its name into its class's table and keeps every class's agreement |
| ConstantPools.VisitSpec | core/src/constantpool.c:48-69 | one loop iteration preserves the invariant that every class seen so far has a valid table equal to its bindings so far |
| ConstantPools.VisitSucceeds | core/src/constantpool.c:48-69 | an iteration succeeds on a well-ordered pool whose bindings fit their tables |
| ConstantPools.PassAgrees | core/src/constantpool.c:46-70 | after the loop, every class's table agrees with its full resolved bindings |
| ConstantPools.PassSucceeds | core/src/constantpool.c:46-70 | the loop succeeds on a well-ordered pool whose bindings fit |
| ConstantPools.PassRefsBack | core/src/constantpool.c:42-71 | a successful loop implies that every parent and owning class it visited comes earlier in the pool |
| ConstantPools.ComputeVTablesSpec | core/src/constantpool.c:42-71 | succeeds iff the pool is well ordered and every class's bindings fit `2 * methods` slots; then every class has a valid table whose get answers its resolved bindings and whose size is its number of distinct method names |
| ConstantPools.GetAfterPass | core/test/constantpool_test.c:72-113 | after computing, `vtable_get` on a class's table gives the index its bindings resolve to |
| PoolExamples.VehiclesWellOrdered | core/test/constantpool_test.c:72-113 | the Vehicle/Car/Volvo pool is well ordered |
| PoolExamples.VehiclesResolved | core/test/constantpool_test.c:72-113 | the resolved bindings of the three classes |
| PoolExamples.VehiclesVolvo | core/test/constantpool_test.c:72-113 | Volvo's bindings mix its own override with inherited entries |
| PoolExamples.VehicleNames | core/test/constantpool_test.c:94-96 | Vehicle binds 2 names |
| PoolExamples.CarNames | core/test/constantpool_test.c:94-96 | Car binds 4 names |
| PoolExamples.VolvoNames | core/test/constantpool_test.c:94-96 | Volvo binds 5 names |
| PoolExamples.VehicleFits | core/src/constantpool.c:50-62 | each class's bindings fit `2 * methods` slots |
| PoolExamples.VehiclesFit | core/src/constantpool.c:42-71 | the fit condition holds for the whole pool |
| PoolExamples.VehiclesCompute | core/test/constantpool_test.c:72-113 | computing the vtables of the test pool succeeds |
| PoolExamples.BindingsGrow | core/test/constantpool_test.c:98-110 | an override shadows the parent's entry, and every other name is inherited |
| PoolExamples.BindingAnswers | core/test/constantpool_test.c:98-110 | every `vtable_get` answer the test expects |
| PoolExamples.VehicleTable | core/test/constantpool_test.c:90-99 | after the pass, Vehicle's own table has size 2 and answers 2 for `hasEngine` and 3 for `isVehicle` |
| PoolExamples.CarTable | core/test/constantpool_test.c:90-104 | after the pass, Car's table has size 4 and answers 5, 3, 6 and 7 for `hasEngine`, `isVehicle`, `gas` and `brake` |
| PoolExamples.VolvoTable | core/test/constantpool_test.c:90-110 | after the pass, Volvo's table has size 5 and answers 5, 3, 6, 9 and 10 for `hasEngine`, `isVehicle`, `gas`, `brake` and `autopilot` |
| Executor.New | core/src/executor.c:6-13 | program counter 0, both stacks empty, nothing allocated |
| Executor.PopValue | core/src/executor.c:71-78 | pops the top value; underflow exactly when the stack is empty |
| Executor.PopN | core/src/executor.c:80-98 | pops the top `k` values in push order, failing exactly when fewer are present |
| Executor.PopPair | core/src/executor.c:71-78 | the left operand is second from the top and the right operand is the top |
| Executor.Arith | core/src/executor.c:21-39 | ADD/SUB/MUL/DIV on signed 32-bit values: the exact sum, difference and product, and for DIV the quotient truncated toward zero (magnitude and sign); overflow and division by zero are faults, and so is a reference operand (admitted under Left out) |
| Executor.Compare | core/src/executor.c:41-69 | EQ/NE compare any two values and never fail; LT, LE, GT and GE hold exactly when the integer comparison does; an ordered comparison with a reference operand faults (admitted under Left out) |
| Executor.FieldSlot | core/src/executor.c:119-122 | the slot index of a field entry; a bad reference otherwise, including an entry of another kind (admitted under Left out) |
| Executor.MethodAt | core/src/executor.c:207-209 | the method entry a CALL names; a bad reference otherwise, including an entry of another kind (admitted under Left out) |
| Executor.ClassFields | core/src/executor.c:111-117 | the field count of a class entry; a bad reference otherwise, including an entry of another kind (admitted under Left out) |
| Executor.AsRef | core/src/executor.c:124-130 | the address held by a reference; `NotAnObject` for an integer |
| Executor.CallMethod | core/src/executor.c:80-98 | succeeds iff the method's arguments are on the operand stack |
| Executor.ExitMethod | core/src/executor.c:100-109 | succeeds iff there is a frame to leave |
| Executor.ExecPush | core/src/executor.c:152-154 | PUSH keeps the pool, the code and heap validity, leaves the pc and keeps running; its effect is stated by `ExecutorProperties.StepPush` |
| Executor.ExecPushVar | core/src/executor.c:158-160 | PUSH_VAR keeps the same frame conditions; its effect is stated by `ExecutorProperties.StepPushVar` |
| Executor.ExecPushField | core/src/executor.c:161-163 | PUSH_FIELD keeps the same frame conditions; its effect is stated by `ExecutorProperties.StepPushField` |
| Executor.ExecPop | core/src/executor.c:164-166 | POP keeps the same frame conditions; its effect is stated by `ExecutorProperties.StepPop` |
| Executor.ExecPopVar | core/src/executor.c:167-170 | POP_VAR keeps the same frame conditions; its effect is stated by `ExecutorProperties.StepPopVar` and `ExecutorProperties.PopVarThenPushVar` |
| Executor.ExecPopField | core/src/executor.c:171-173 | POP_FIELD keeps the same frame conditions, and a valid heap stays valid after the write; its effect is stated by `ExecutorProperties.StepPopField` |
| Executor.ExecArith | core/src/executor.c:174-185 | ADD to DIV keep the same frame conditions; their effect is stated by `ExecutorProperties.StepArith` |
| Executor.ExecJump | core/src/executor.c:186-188 | JUMP keeps the same frame conditions; with the branch tail its effect is stated by `ExecutorProperties.StepJump` |
| Executor.ExecCompare | core/src/executor.c:189-206 | JUMP_EQ to JUMP_GE keep the same frame conditions; with the branch tail their effect is stated by `ExecutorProperties.StepBranch` |
| Executor.ExecCall | core/src/executor.c:207-209 | CALL keeps the pool, the code and heap validity and keeps running; its effect is stated by `ExecutorProperties.StepCall` |
| Executor.ExecReturn | core/src/executor.c:210-218 | RETURN keeps the pool, the code and heap validity; it is the only handler that can stop the program, as `ExecutorProperties.StepReturn` states |
| Executor.ExecNew | core/src/executor.c:219-221 | NEW keeps the same frame conditions, and the heap with the new object stays valid; its effect is stated by `ExecutorProperties.StepNew` |
| Executor.ExecDup | core/src/executor.c:222-224 | DUP keeps the same frame conditions; its effect is stated by `ExecutorProperties.StepDup` |
| Executor.Handle | core/src/executor.c:150-225 | every handler keeps the pool, the code and heap validity; only CALL and RETURN move the pc, and only RETURN can stop the program |
| Executor.Advance | core/src/executor.c:227-244 | a jump pops the flag its handler pushed and goes to the operand iff the flag is non-zero, otherwise to pc + 1; CALL and RETURN keep the pc they set; everything else moves to pc + 1 |
| Executor.Step | core/src/executor.c:142-247 | keeps the pool and the code; a pc past the end is a fault; only RETURN can stop the program |
| Executor.Run | core/src/executor.c:249-253 | `executor_step_all` with a step bound: `Executor.RunStops`, `Executor.RunStep`, `Executor.RunSplit` and `Executor.RunHalted` state that it repeats `Step` until the program ends or a step faults, and `Executor.RunKeeps` that it keeps the pool, the code and heap validity |
| Executor.RunStops | core/src/executor.c:249-253 | a step that fails or ends the program ends the run with that step's result |
| Executor.RunSplit | core/src/executor.c:249-253 | running `a + b` steps is running `a` steps and then `b` more from where the first part stopped |
| Executor.RunHalted | core/src/executor.c:249-253 | once the program has ended, further fuel changes nothing |
| Executor.RunStep | core/src/executor.c:249-253 | one more step of `Run` is one `Step` |
| Executor.RunKeeps | core/src/executor.c:249-253 | a run keeps the pool, the code and heap validity |
| ExecutorProperties.StepPush | core/src/executor.c:152-154 | PUSH puts the signed reading of the operand on top and moves to the next instruction |
| ExecutorProperties.StepPop | core/src/executor.c:164-166 | POP removes the top value and nothing else |
| ExecutorProperties.StepDup | core/src/executor.c:222-224 | DUP duplicates the top value |
| ExecutorProperties.StepNoOp | core/src/executor.c:150-225 | PUSH_CONST, and any opcode beyond DUP, only moves to the next instruction |
| ExecutorProperties.StepArith | core/src/executor.c:174-185 | an arithmetic opcode replaces the top two integers by the result of applying it to them, left operand first |
| ExecutorProperties.ArithExamples | core/test/executor_test.c:105-151 | the test's sums, differences, products and quotients |
| ExecutorProperties.StepJump | core/src/executor.c:186-188 | JUMP moves to its operand and leaves the stacks alone |
| ExecutorProperties.StepBranch | core/src/executor.c:189-206 | a conditional jump pops two values and goes to its operand iff the comparison holds, otherwise to the next instruction |
| ExecutorProperties.BranchExamples | core/test/executor_test.c:192-317 | the test's taken and not-taken conditional jumps |
| ExecutorProperties.StepCall | core/src/executor.c:207-209 | CALL moves the arguments into a new frame, pads it with zeroed locals and jumps to the method's address |
| ExecutorProperties.StepReturn | core/src/executor.c:210-218 | RETURN pops the frame and resumes at its return address, or ends the program when no frame is left |
| ExecutorProperties.StepNew | core/src/executor.c:219-221 | NEW pushes a reference to a fresh object of the class with zeroed slots, leaving every existing cell alone |
| ExecutorProperties.StepPushVar | core/src/executor.c:158-160 | PUSH_VAR pushes the named variable of the current frame |
| ExecutorProperties.StepPopVar | core/src/executor.c:167-170 | POP_VAR stores the top value into the named variable of the current frame |
| ExecutorProperties.PopVarThenPushVar | core/test/executor_test.c:415-434 | storing a variable and loading it back restores the operand stack |
| ExecutorProperties.StepPushField | core/src/executor.c:161-163 | PUSH_FIELD replaces an object reference by the value of the named field |
| ExecutorProperties.StepPopField | core/src/executor.c:171-173 | POP_FIELD stores a value into the named field of an object, and only there |
| ExecutorProperties.PopFieldThenPushField | core/test/executor_test.c:355-413 | writing a field and reading it back gives the written value |
| Programs.FacFits | core/test/executor_test.c:495-538 | the factorials up to 12! fit a signed 32-bit integer, and 13! does not |
| Programs.FacTest | core/test/executor_test.c:507-509 | the first three instructions of `fac` branch to 35 iff n > 1 |
| Programs.FacBase | core/test/executor_test.c:512-513 | when n <= 1, `fac` returns 1 |
| Programs.FacLoad | core/test/executor_test.c:516-518 | loads n, the receiver and n |
| Programs.FacDecrement | core/test/executor_test.c:519-520 | turns the top n into n - 1 |
| Programs.FacRecurse | core/test/executor_test.c:521 | the CALL enters `fac` with the receiver and n - 1 |
| Programs.FacPrepare | core/test/executor_test.c:516-520 | the five instructions before the recursive call leave n, the receiver and n - 1 on the stack |
| Programs.FacDescend | core/test/executor_test.c:516-521 | the descent into `fac(n - 1)`, composed |
| Programs.FacPrepared | core/test/executor_test.c:521 | the recursive CALL keeps n below the new frame |
| Programs.FacEnter | core/test/executor_test.c:507-521 | for n > 1, nine steps enter `fac(n - 1)` with n kept for the multiplication |
| Programs.FacAscend | core/test/executor_test.c:522-523 | MUL and RETURN give n * (n - 1)! back to the caller |
| Programs.FacCall | core/test/executor_test.c:507-523 | a call of `fac` on any k <= 12 returns k! to its caller after `FacSteps(k)` steps, with the caller's frames and heap restored |
| Programs.FacCallBase | core/test/executor_test.c:507-513 | the same for k <= 1 |
| Programs.FacInner | core/test/executor_test.c:507-522 | for k > 1, the recursive call leaves k and (k - 1)! ready for the MUL |
| Programs.FacCallStep | core/test/executor_test.c:507-523 | the inductive step of FacCall |
| Programs.MaxTest | core/test/executor_test.c:449-451 | `max` branches to 35 iff a > b |
| Programs.MaxPick | core/test/executor_test.c:452-455 | either arm returns the larger value |
| Programs.MaxCall | core/test/executor_test.c:449-455 | a call of `max` returns the larger argument after five steps |
| Programs.MainNew | core/test/executor_test.c:501 | NEW pushes a fresh object to serve as the receiver |
| Programs.FacMainCall | core/test/executor_test.c:502-503 | PUSH n and CALL 9 enter `fac(receiver, n)`, returning to address 4 |
| Programs.EnterMain | core/test/executor_test.c:24-44 | the CALL 1 at address 0 enters `<main>` with its one local |
| Programs.FacSetup | core/test/executor_test.c:500-503 | the first four steps of the factorial program reach `fac` called from `<main>` |
| Programs.MainReturns | core/test/executor_test.c:55-70 | the RETURN that ends `<main>` stops the program, with the returned value as the only one left |
| Programs.ReturnsToMain | core/src/executor.c:210-218 | a method that returns a value to `<main>`'s final RETURN ends the program one step later with that value alone on the stack |
| Programs.FacFinishes | core/test/executor_test.c:504-532 | from inside `fac(k)` called by `<main>`, the program halts with k! alone on the stack |
| Programs.FacFromMain | core/test/executor_test.c:503-523 | `fac(k)` called by `<main>` returns k! to it |
| Programs.FacRun | core/test/executor_test.c:525-532 | the factorial program halts after `FacSteps(x) + 5` steps with x! as the only value and no frame left |
| Programs.FacProgram | core/test/executor_test.c:495-538 | the same from a fresh executor, for every x up to 12 rather than only the tested 0 to 8 |
| Programs.MaxMainCall | core/test/executor_test.c:442-445 | PUSH a, PUSH b and CALL 7 enter `max(receiver, a, b)` |
| Programs.MaxSetup | core/test/executor_test.c:457-462 | the first five steps reach `max` called from `<main>` |
| Programs.MaxFinishes | core/test/executor_test.c:464-476 | from inside `max`, the program halts with the larger argument alone on the stack |
| Programs.MaxRun | core/test/executor_test.c:457-476 | the max program halts after eleven steps with the larger signed operand |
| Programs.MaxProgram | core/test/executor_test.c:436-493 | the same from a fresh executor, for every pair of 32-bit operands |
| BinaryFormat.WriteU32 | core/src/binary_format.c:14-18 | four bytes whose big-endian value is the number |
| BinaryFormat.ReadU32 | core/src/binary_format.c:21-26 | succeeds iff four bytes remain; the result is below 2^32 and exactly four bytes are consumed |
| BinaryFormat.U32RoundTrip | core/src/binary_format.c:14-26 | reading back a written 32-bit number gives the number and the rest of the input |
| BinaryFormat.U32Canonical | core/src/binary_format.c:14-26 | any four bytes are the encoding of the number they decode to |
| BinaryFormat.TextBytes | core/src/binary_format.c:41-43 | one byte per character, equal to its code, and no NUL |
| BinaryFormat.WriteText | core/src/binary_format.c:41-43 | a 4-byte length followed by the text and its NUL: 4 + n + 1 bytes |
| BinaryFormat.CText | core/src/binary_format.c:111-113 | the characters before the first NUL of the buffer; `Malformed` when there is no NUL |
| BinaryFormat.ReadText | core/src/binary_format.c:111-113 | reads a length and that many bytes; faults only on truncated or malformed input; always consumes input |
| BinaryFormat.TextRoundTrip | core/src/binary_format.c:111-113 | reading a written text, NUL-free, gives the text and the rest of the input |
| BinaryFormat.CTextOf | core/src/binary_format.c:111-113 | a NUL-terminated buffer reads as the text before the NUL |
| BinaryFormat.Unlink | core/src/binary_format.c:117 | a class entry with its vtable cleared; other entries unchanged |
| BinaryFormat.WriteEntry | core/src/binary_format.c:33-79 | starts with the entry's type tag, and its length is the entry's encoded size |
| BinaryFormat.ReadEntry | core/src/binary_format.c:101-157 | reads one tagged entry; faults only on truncated or malformed input; always consumes input |
| BinaryFormat.UnknownTagSkipped | core/src/binary_format.c:105-157 | an unknown tag leaves the entry unset and consumes only the tag byte |
| BinaryFormat.EntryRoundTrip | core/src/binary_format.c:101-157 | reading a written entry gives it back with its vtable cleared |
| BinaryFormat.ClassRoundTrip | core/src/binary_format.c:107-120 | a class entry survives writing and reading |
| BinaryFormat.FieldRoundTrip | core/src/binary_format.c:121-132 | a field entry survives writing and reading |
| BinaryFormat.MethodRoundTrip | core/src/binary_format.c:133-146 | a method entry survives writing and reading |
| BinaryFormat.StrRoundTrip | core/src/binary_format.c:147-156 | a string entry survives writing and reading |
| BinaryFormat.WritePool | core/src/binary_format.c:28-81 | starts with the 4-byte entry count |
| BinaryFormat.ReadEntries | core/src/binary_format.c:99-158 | reads exactly the requested number of entries |
| BinaryFormat.ReadPool | core/src/binary_format.c:93-161 | a pool of the length read, with no vtable on any class |
| BinaryFormat.ReadEntriesUnlinked | core/src/binary_format.c:117 | no entry read carries a vtable |
| BinaryFormat.Unlinked | core/src/binary_format.c:117 | an entry carries no vtable |
| BinaryFormat.EntriesRoundTrip | core/src/binary_format.c:99-158 | reading written entries gives them back, vtables cleared |
| BinaryFormat.PoolRoundTrip | core/src/binary_format.c:93-161 | reading a written pool gives it back, vtables cleared |
| BinaryFormat.EntriesLength | core/src/binary_format.c:31-80 | the byte count of the written entries |
| BinaryFormat.PoolLength | core/src/binary_format.c:28-81 | the byte count of the written pool |
| BinaryFormat.WriteInstruction | core/src/binary_format.c:88-89 | the opcode byte then the big-endian operand: five bytes |
| BinaryFormat.WriteInstructions | core/src/binary_format.c:86-90 | five bytes per instruction |
| BinaryFormat.WriteStream | core/src/binary_format.c:83-91 | the count, then every instruction |
| BinaryFormat.ReadInstruction | core/src/binary_format.c:171-172 | succeeds iff five bytes remain, and consumes exactly five |
| BinaryFormat.ReadInstructions | core/src/binary_format.c:169-173 | reads exactly the requested number of instructions |
| BinaryFormat.ReadStream | core/src/binary_format.c:163-176 | a stream of the length read |
| BinaryFormat.InstructionRoundTrip | core/src/binary_format.c:171-172 | an instruction survives writing and reading |
| BinaryFormat.InstructionsRoundTrip | core/src/binary_format.c:169-173 | a list of instructions survives writing and reading |
| BinaryFormat.StreamRoundTrip | core/src/binary_format.c:163-176 | an instruction stream survives writing and reading |
| BinaryFormat.FileRoundTrip | core/src/binary_format.c:93-176 | a pool written and then a stream written read back as the same pool, vtables cleared, and the same stream |
| BinaryFormat.AnimalEncodable | core/test/binary_format_test.c:10-22 | the test pool can be written |
| BinaryFormat.AnimalRoundTrip | core/test/binary_format_test.c:29-67 | the test pool reads back as the class, method, field and string entries the test expects |

## Left out

- `config.c` (the allocator hooks) is not part of this model. Allocation is a fresh heap address, and the configured minimum stack capacity is a parameter `min`.
- `evalstack.c` is not modelled separately. The operand stack is a `GrowableStack` of `Value`s, the same generic stack.
- The `*_free` functions for the executor, the stacks, the pool and vtables are left out, because releasing memory has no observable effect in a functional model. `object_free`, `string_free` and `string_builder_free` are modelled as removal of heap cells.
- `binform_print` and `cli.c` are left out because they only print. `FILE` reading and writing is replaced by byte sequences.
- Intrinsic dispatch is left out: calls to built-ins such as Console println and the native StringBuilder methods. The code's CALL never reaches them, and the reserved pool indices serve only as class tags.
- Executor.ExecPopVar: copies the whole tagged value into the variable, while the source copies only the `integer` member of the union. The two agree on integers.
- Executor.CallMethod: locals beyond the arguments start as integer 0. In the C they are uninitialised memory.
- Objects.ObjectNew: fields start as integer 0. In the C they are uninitialised memory.
- ConstantPools.Visit: inserts a method with the corrected `VTables.Put`, which replaces an existing binding. `vtable_put` as written never compares names (see "## Findings"), so with it an override lands in a later slot and `vtable_get` keeps answering the inherited index. `ConstantPools.ComputeVTablesSpec`, `ConstantPools.OwnBindingsWin` and the `PoolExamples` tables hold for the corrected put only.
- Executor.Step: where the C has undefined behaviour, the model returns a fault. Popping an empty stack, a bad pool index, signed overflow, division by zero, `INT_MIN / -1`, a field access on an integer, a variable or field index outside the frame or object (`BadSlot`) and a program counter past the end are all faults. So are the two union reinterpretations named on the next lines.
- Executor.Arith: a reference operand is a `NotAnInteger` fault. `op_add` to `op_div` read the union's `integer` member whatever it holds, so the C computes on the pointer's bits, which the model's abstract addresses do not have.
- Executor.Compare: an ordered comparison (LT, LE, GT, GE) with a reference operand is a `NotAnInteger` fault, for the same reason. The C compares the pointer's integer reading.
- Executor.FieldSlot: a pool entry that is not a field is a `BadPoolRef` fault. The C reads the entry's payload union as a field.
- Executor.MethodAt: a pool entry that is not a method is a `BadPoolRef` fault. The C reads the entry's payload union as a method.
- Executor.ClassFields: a pool entry that is not a class is a `BadPoolRef` fault. The C reads the entry's payload union as a class.
- Executor.Run: is bounded by a step count (fuel), because `executor_step_all` may loop forever. Properties of whole programs name their exact step counts.
- Programs.FacProgram: is proved for x up to 12. From 13 on, the factorial overflows a signed 32-bit integer and the model faults, while the C has undefined behaviour.
- VTables.Hash: computes the polynomial exactly in integers, reduced modulo the length. The source computes `powl` in `long double` and converts to `uint32_t`. That conversion is undefined once the sum passes 2^32, which happens from about seven characters on. Characters are taken as unsigned, whereas `char` is signed on many platforms.
- VTables.Get: on a full table where the name is absent, returns 0 and `Exists` returns false, while the C loops forever. `Put` leaves such a table unchanged, and building a vtable reports it as a `TableFull` fault.
- VTables.New: a length-0 table is possible, for a class with no methods. Building it with a method is a `TableFull` fault, and every get answers 0. The C computes `% 0` there.
- StringBuilderClass.AppendString: requires the argument to be the builder's own string or a string with a buffer of its own. Sharing a buffer between two strings does not arise in the source.
- StringBuilderClass.AppendInt: `itoa` is non-standard; the model uses plain base-10 text with a leading '-'.
- BinaryFormat.ReadPool: short input is a `Truncated` fault, and a name whose bytes contain no NUL is `Malformed`. The C reads garbage or past the buffer in both cases.
- BinaryFormat.WritePool: requires every entry to be set, every text to be NUL-free with one byte per character, and every number to fit 32 bits. Outside that, the C writes uninitialised memory or truncates.
- The Animal/Dog/Cat expectations of the first `constantpool_compute_vtables` test are not modelled, because they rely on a `virtual` flag the header does not have. The Vehicle/Car/Volvo test is modelled.

## Findings

| source | as written | input that shows it | evidently intended | confidence | as-written member | corrected member |
|---|---|---|---|---|---|---|
| core/src/vtable.c:23-39 | `vtable_put` never compares names, so it writes into the first empty slot of the probe even when the name is already bound | in a 4-slot table, put ("abc", 1) then ("abc", 2): get answers 1 and the size is 2 | replace the existing binding, so get answers 2 and the size is 1, as the replace test at core/test/vtable_test.c:59-69 expects | high; not executed | VTables.ReplaceAsWrittenFails | VTables.PutSpec |
| core/src/constantpool.c:63-66 | `constantpool_compute_vtables` counts on `vtable_put` to override an inherited method, but the put as written adds the subclass's binding in a later slot of the probe | the depth-three pool, taking `vtable_copy` to put the parent's entries in slot order: Car's 10-slot table receives Vehicle's `hasEngine` (2) and `isVehicle` (3), both at home slot 4, then its own `hasEngine` (5); get answers 2 and the size is 3 | get answers 5 and the size is 2, as core/test/constantpool_test.c:101 expects | high; not executed | VTables.OverrideAsWrittenFails | VTables.OverrideCorrectedAt |
