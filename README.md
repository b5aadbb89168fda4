# GdPy core, modelled in Dafny

GdPy reads and writes Geometry Dash saves and levels. This project models the parts of GdPy that carry its logic:

- **The identity registry.** Groups, blocks and items are identities (`GdId`) reached through handles (`GdIdRef`). Each per-category container (`GdIdContainer`) binds identities to integers one-to-one. The container allocates the smallest free integer on demand. Identities can be merged (`absorb`).
- **The two-way serializer combinators** (`serializing.py`) and the one-way recognizers (`recognizing.py`).
- **The object codec.** This covers the schema registry, the class-id dispatch table, and the small finite codecs for rotation, collision, pickup, lock and item type. It also covers how `SpecialId` classes get their id.
- **The save and level container.** It revision-bumps levels on `add`. The `;`-joined level framing is included.
- **The scoped context stacks** (`Contextable`, `SimpleContext`, `ContextProperty`, `ContextPool`), the `IgnoreDefault` default fields and the `Maker` factory.
- **The small utilities.** These are the flat-pairs dictionary codec, the save XOR and padding helpers, the plist ↔ JSON-value tree codec and the integer 2-vector.

The modules follow the source files:

| Source | Dafny |
|---|---|
| `classes/gd_module.py` | `gd_module.dfy` |
| `classes/gd_id.py` | `gd_id.dfy` |
| `serializing.py` | `serializing.dfy`, `serializing_roundtrip.dfy` |
| `recognizing.py` | `recognizing.dfy` |
| `classes/gd_object_szr.py` | `gd_object_szr.dfy`, `object_codecs.dfy` |
| `classes/gd_object.py` | `gd_object.dfy` |
| `classes/save.py` | `save.dfy` |
| `classes/save_szr.py` | `save_szr.dfy` |
| `context/*.py` | `contextable.dfy`, `simple_context.dfy`, `context_prop.dfy`, `context_pool.dfy` |
| `ignore_default.py` | `ignore_default.dfy` |
| `maker.py` | `maker.dfy` |
| `tools/*.py` | `funcs.dfy`, `decompressing.dfy`, `plist.dfy`, `vector2abc.dfy`, `vector2.dfy` |

The remaining files are shared:

- `wrappers.dfy` holds the `Result`/`Option` types and the Python exception kinds.
- `text.dfy` holds the string splitting and joining, `str` of an integer and `int` of a string.
- `values.dfy` holds a dynamic value type for the dictionaries the serializers pass around.

Stateful code is modelled as classes whose methods are proved against specification functions. Examples are the registry, the context stacks, `Save`, `Maker` and the default-field instances. Pure code is modelled as functions with lemmas. Python exceptions are `Err` results, or `Fail` outcomes for methods.

## Model

| member | source | states |
|---|---|---|
| Contextable.ContextStack.constructor | context/contextable.py:13-15 | a new `Contextable` subclass starts with an empty context stack |
| Contextable.ContextStack.Enter | context/contextable.py:17-21 | entering an instance pushes it on its class's stack |
| Contextable.ContextStack.Exit | context/contextable.py:22-23 | leaving pops the top; `IndexError` on an empty stack, `AssertionError` (after the pop) when the top is not the instance being left |
| Contextable.ContextStack.Current | context/contextable.py:25-32 | `C()`: the innermost instance; on an empty stack the default if one was given, else `RuntimeError` |
| Contextable.Nested | context/contextable.py:17-32 | in `with a: with b:` the inner scope sees `b`, the outer sees `a` again, and the stack is restored |
| Contextable.Independent | context/contextable.py:13-15 | entering an instance of one subclass leaves what `C()` of another subclass returns unchanged |
| SimpleContext.ManagerStack.constructor | context/simple_context.py:24 | the process-wide manager stack starts empty |
| SimpleContext.ManagerStack.Enter | context/simple_context.py:31-35 | `__enter__` returns the manager's entered value and pushes the manager |
| SimpleContext.ManagerStack.Exit | context/simple_context.py:37-39 | `__exit__` pops and returns the most recent manager, `IndexError` when none is left |
| SimpleContext.Nested | context/simple_context.py:31-39 | nested `with` blocks exit their managers in reverse order and leave the stack as it was |
| ContextProp.EvalPush | context/context_prop.py:46-48 | a node's value depends only on the nodes at and below it, so pushing more nodes does not change it |
| ContextProp.EvalTop | context/context_prop.py:21-48 | value node gives its value, func node calls its function, edit node applies its function to the value of the node below |
| ContextProp.ContextProperty.constructor | context/context_prop.py:61 | a property starts with an empty stack |
| ContextProp.ContextProperty.Get | context/context_prop.py:63-66 | `RuntimeError` exactly when the stack is empty, else the value of the top node |
| ContextProp.ContextProperty.Push | context/context_prop.py:68-74 | entering `add(node)` pushes it; an edit node at index 0 raises `TypeError` and leaves the stack as it was |
| ContextProp.ContextProperty.Pop | context/context_prop.py:75-76 | leaving `add(node)` pops exactly the top node |
| ContextProp.ContextProperty.With | context/context_prop.py:68-85 | inside `with prop.add(node)` `get` returns the new node's value; afterwards the stack is restored |
| ContextProp.Example | context/context_prop.py:52-59 | the class's own example: 42 under `add_value(42)`, 43 under the `+1` edit, `RuntimeError` after both scopes |
| ContextProp.EditFirst | context/context_prop.py:40-44 | an edit node on an empty property raises `TypeError` and leaves no node behind |
| ContextPool.PoolProperty.constructor | context/context_pool.py:12-14 | a pool property starts with an empty stack and no pool |
| ContextPool.PoolProperty.Init | context/context_pool.py:16-18 | `__prop_init__` stores the property's name and pool |
| ContextPool.PoolProperty.Get | context/context_pool.py:20-23 | `RuntimeError` on an empty stack, else the top node's value |
| ContextPool.PoolProperty.Push | context/context_pool.py:26-31 | entering `add`: an edit node first raises `TypeError`, a property never registered (no pool) `AttributeError`; otherwise the node is pushed and the name marked as non-default, remembering whether this entry marked it |
| ContextPool.PoolProperty.Pop | context/context_pool.py:30-33 | leaving `add`: the mark is removed only by the entry that set it, then the node is popped |
| ContextPool.MappingAsWritten | context/context_pool.py:80-86 | the parameter-to-property mapping as written; `KeywordSilentlyWins` shows the unraised `TypeError`, `Mapping` the corrected one |
| ContextPool.Clash | context/context_pool.py:55-58 | a positional name repeats an earlier one or a keyword name; partner `NoClash`, `Pool.Register` |
| ContextPool.SelfMapping | context/context_pool.py:81-82 | every positional name maps to itself |
| ContextPool.KeywordMapping | context/context_pool.py:85-86 | the keyword entries give exactly the keyword names as keys |
| ContextPool.KeywordMappingAt | context/context_pool.py:85-86 | a keyword maps to its property name, or to itself when given as `...` |
| ContextPool.Mapping | context/context_pool.py:80-86 | the mapping as intended: `TypeError` exactly when a positional name is also a keyword; otherwise the keys are all names, positional ones map to themselves and keyword ones to their target |
| ContextPool.KeywordSilentlyWins | context/context_pool.py:83-84 | `decorate_func('a', a='x')` as written maps `a` to `x`; the intended mapping refuses it with `TypeError` |
| ContextPool.NoClash | context/context_pool.py:55-58 | without a clash the positional names are distinct and none is a keyword name |
| ContextPool.Pool.constructor | context/context_pool.py:36-38 | a pool starts with no properties and no non-default names |
| ContextPool.Pool.Item | context/context_pool.py:40-41 | `pool[name]` is the registered property, `KeyError` otherwise |
| ContextPool.Pool.Mark | context/context_pool.py:44-48 | entering `node_added` adds the name, reporting whether it was absent |
| ContextPool.Pool.Unmark | context/context_pool.py:49-52 | leaving `node_added` removes the name only if this entry added it |
| ContextPool.Pool.BindGiven | context/context_pool.py:59-61 | the keyword properties are stored under their names and bound to this pool |
| ContextPool.Pool.BindFresh | context/context_pool.py:55-61 | every distinct positional name gets a fresh, empty property of its own, bound to this pool; other entries are untouched |
| ContextPool.Pool.Register | context/context_pool.py:54-61 | `TypeError` (nothing stored) exactly when a positional name repeats a keyword or an earlier name; otherwise the keyword properties and fresh positional ones are stored and every other entry is kept |
| ContextPool.Pool.Decorate | context/context_pool.py:88-93 | with `__register__`, every property name not yet known gets a fresh property; without it, `KeyError` when a property name is unknown and nothing changes |
| ContextPool.Pool.RegisterMissing | context/context_pool.py:88-89 | registering the unknown property names gives each a fresh, distinct property under its name and keeps every known one |
| ContextPool.Pool.Currents | context/context_pool.py:107 | the current value of the property behind every mapped parameter |
| ContextPool.Pool.Call | context/context_pool.py:101-108 | the wrapper passes exactly `CallArgs` of the positional arguments by name, the keywords and the current property values |
| ContextPool.Pool.Fill | context/context_pool.py:107 | reads every still missing parameter from its property; `RuntimeError` exactly when one of them has no value |
| ContextPool.CallArgs | context/context_pool.py:101-108 | what the wrapper passes on, with its `TypeError` and `RuntimeError`; partner `CallArgsFilled`, `CallArgsPrecedence` |
| ContextPool.CallArgsFilled | context/context_pool.py:106-107 | when every missing parameter's property has a value, the call gets keywords, then positionals, then property values |
| ContextPool.CallArgsPrecedence | context/context_pool.py:102-107 | explicit arguments are never overridden by a property value; every other mapped parameter gets its property's value |
| ContextPool.Positional | context/context_pool.py:102 | `dict(zip(argnames, args))` names the first `min(len)` positional arguments |
| ContextPool.DecorateExample | context/context_pool.py:114-129 | the module's demonstration passes `(-1, 2, 3)` |
| ContextPool.CallArgsExample | context/context_pool.py:124-129 | `func(-1)` under values 1, 2, 3 is called with `a=-1, b=2, c=3` |
| ContextPool.ExamplePushed | context/context_pool.py:124-128 | inside the three `add_value` scopes the properties `a`, `b`, `car` read 1, 2, 3 |
| ContextPool.ExampleCurrents | context/context_pool.py:124-129 | the parameters `a`, `b`, `c` see the values 1, 2, 3 |
| ContextPool.ExamplePool | context/context_pool.py:117-120 | registering on decoration creates three distinct empty properties `a`, `b`, `car` |
| ContextPool.ExampleMapping | context/context_pool.py:120 | `decorate_func('a', b=..., c='car')` maps `a→a`, `b→b`, `c→car` |
| ContextPool.NestedMarks | context/context_pool.py:44-52 | `node_added` nested for one name keeps the mark until the outer exit removes it |
| Identity.AgreeAdd | classes/gd_module.py:154 | adding a fresh key/value pair to both directions of a `bidict` keeps them inverse to each other |
| Identity.AgreeRemove | classes/gd_module.py:154 | popping a key from both directions of a `bidict` keeps them inverse |
| Identity.RebindKey | classes/gd_module.py:179-183 | popping a key and setting it again equals setting it |
| Identity.FirstFreeUnique | classes/gd_module.py:196-198 | the integer the cursor loop stops at is unique |
| Identity.FirstFreeExample | classes/gd_module.py:196-200 | with 1, 2, 4 bound the first allocation from cursor 1 is 3; with 1..4 bound, from cursor 4 it is 5 |
| Identity.GdIdType.constructor | classes/gd_module.py:79-80 | one fresh cell per reserved constant value, the constant table one-to-one |
| Identity.GdIdType.Create | classes/gd_module.py:82-87 | `None` gives a handle of a fresh unbound cell, a reserved value its constant cell, any other value the cell the active module's container binds to it: the cell already bound to it, with no other binding changed, or else a fresh cell bound to it and added to the bindings; `RuntimeError` without an active module |
| Identity.GdId.constructor | classes/gd_module.py:110-113 | a new cell has no handles and belongs to no container |
| Identity.GdId.GetRef | classes/gd_module.py:121-124 | an existing handle of the cell when there is one, otherwise one fresh handle registered with it |
| Identity.GdId.MoveHandles | classes/gd_module.py:137-142 | every handle of `other` now observes this cell, and `other` keeps none |
| Identity.GdId.MoveBindings | classes/gd_module.py:144-148 | in every container of `other`, its binding moves to this cell unless this cell already has one there |
| Identity.GdId.Merge | classes/gd_module.py:137-149 | the merged cell leaves the module, its handles and bindings move over, the module invariant is kept |
| Identity.GdId.Absorb | classes/gd_module.py:126-149 | `TypeError` with nothing changed exactly for a missing cell, another category or a constant; otherwise the merge (self-absorption changes nothing: see Findings) |
| Identity.GdIdRef.constructor | classes/gd_module.py:30-33 | a new handle observes its cell and is registered with it |
| Identity.GdIdRef.Absorb | classes/gd_module.py:42-43 | after `a.absorb(b)`, `a == b` and every old handle of `b`'s cell observes `a`'s cell; `TypeError` on a category mismatch or a constant |
| Identity.GdIdRef.GetValue | classes/gd_module.py:35-40 | a constant's reserved integer; without an active module the default or `RuntimeError`; otherwise the integer the cell is bound to, or the default, with the container untouched; or, for an unbound cell without a default, the first free integer from the cursor, bound to the cell, with the cursor moved past it |
| Identity.GdIdContainer.constructor | classes/gd_module.py:152-155 | nothing bound and the cursor at 1 |
| Identity.GdIdContainer.Transfer | classes/gd_module.py:145-148 | one container step of `absorb`: the binding moves to the target cell unless it has one, and stays one-to-one |
| Identity.GdIdContainer.Get | classes/gd_module.py:160-173 | fresh unbound cell for `None`; the constant for a reserved value; the cell already bound to the value; else a fresh cell bound to it. Afterwards the handle's cell holds the value |
| Identity.GdIdContainer.NewCell | classes/gd_module.py:170-173 | a fresh cell, bound to the value when one is given |
| Identity.GdIdContainer.SetValue | classes/gd_module.py:175-186 | constants raise `TypeError`; binding a value another cell holds fails with nothing changed (the corrected half); otherwise the cell is bound to the new value, or unbound for `None` |
| Identity.GdIdContainer.FirstFree | classes/gd_module.py:196-197 | the cursor loop stops at the smallest unbound integer from the cursor on |
| Identity.GdIdContainer.GetValue | classes/gd_module.py:188-201 | constant's integer; the bound value; the default; else the first free integer, which is then bound and the cursor moved past it |
| Identity.NewContainers | classes/gd_module.py:95-96 | `ids_factory`: one fresh empty container per category |
| Identity.GdModule.constructor | classes/gd_module.py:203-206 | a new module has one empty container per category and the module invariant holds |
| Identity.GdModule.Initially | classes/gd_module.py:203-206 | a module whose containers are empty satisfies the invariant |
| Identity.GdModule.AddCell | classes/gd_module.py:170 | a fresh unbound cell joins the module without breaking the invariant |
| Identity.GdModule.Bind | classes/gd_module.py:171-172 | binding a free integer to an unbound cell keeps both directions and the cell's container set in step |
| Identity.GdModule.Unbind | classes/gd_module.py:185-186 | dropping a binding keeps both directions and the cell's container set in step |
| Identity.GetTwice | classes/gd_module.py:166-168 | asking a container twice for one integer gives handles that compare equal |
| Identity.AbsorbHandlesAsWritten | classes/gd_module.py:137-142 | the handle sets as written: `other` ends with none, and for distinct cells this one gets both |
| Identity.SelfAbsorbDropsHandles | classes/gd_module.py:142 | `g.absorb(g)` as written empties `g`'s own handle set |
| Identity.SetValueAsWritten | classes/gd_module.py:175-186 | `set_value` as written: a duplicate value fails after the old binding was already popped |
| Identity.SetValuePartialUpdate | classes/gd_module.py:179-183 | rebinding cell 1 to the value cell 2 holds raises, yet cell 1 has lost its binding and is still listed |
| GdIds.New | classes/gd_id.py:19-28 | `Group(value)` (and `Block`, `Item`): an integer or `None` goes through `create` (an integer already bound in the active module gives its cell and changes no binding; an unbound one gets a fresh cell bound to it), a handle of the same category is returned as it is, anything else is `TypeError` |
| Values.ToInt | classes/gd_object_szr.py:102-103 | Python's `int` applied to a value: an integer is itself, a boolean 0 or 1, a string is read by `Text.ParseInt` (`ValueError` where that refuses it), anything else is a `TypeError`; a success is always an integer |
| Values.ToStr | classes/gd_object_szr.py:105-106 | Python's `str` applied to a value: a string is itself, `None` is `'None'`, a boolean `'True'` or `'False'`, an integer its decimal text; it fails exactly on tuples, dicts, instances and classes, whose `repr` is not modelled |
| Values.ToIntToStr | classes/gd_object_szr.py:102-106 | `int(str(i)) == i` for every integer |
| Values.ToIntToStrBool | classes/gd_object_szr.py:102-106 | `int(b)` succeeds for a boolean but `int(str(b))` is a `ValueError` |
| Values.LastIndex | recognizing.py:128-129 | a dict display keeps the last value given for a key: the index found holds the key and no later entry does; none means no entry has it |
| Text.ParseInt | classes/gd_object_szr.py:102-103 | `int(text)` on ASCII text; partner `ParseIntToStr`, `ParseIntPadded`, `ParseIntAccepts`, `ParseIntRefuses` |
| Text.IntToStr | classes/gd_object_szr.py:105-106 | `str(i)` of an integer; inverse of `ParseInt` by `ParseIntToStr` |
| Text.Split | classes/save_szr.py:39 | `s.split(c)`; inverse of `Join` by `SplitJoin`, `JoinSplit` |
| Text.Join | classes/save_szr.py:57 | `c.join(parts)`; partner `SplitJoin`, `JoinSplit` |
| Text.DigitChar | classes/gd_object_szr.py:105-106 | each digit below ten is written as a decimal digit character |
| Text.DigitValue | classes/gd_object_szr.py:102-103 | a digit character reads back as the digit that writes it |
| Text.ParseNatToStr | classes/gd_object_szr.py:102-106 | the decimal text of a natural number starts with a digit and parses back to it |
| Text.ParseIntToStr | classes/gd_object_szr.py:102-106 | `int(str(i)) == i`, negative numbers included |
| Text.NatToStr | classes/gd_object_szr.py:105-106 | `str(n)` of a natural number is a non-empty run of decimal digits |
| Text.TrimLeft | classes/gd_object_szr.py:102-103 | the whitespace `int` skips before the number (tab to carriage return and the space, not 0x1C to 0x1F): the result is a suffix that does not start with whitespace |
| Text.TrimRight | classes/gd_object_szr.py:102-103 | the whitespace `int` skips after the number (tab to carriage return and the space, not 0x1C to 0x1F): the result does not end with whitespace |
| Text.StripUnpadded | classes/gd_object_szr.py:102-103 | text that neither starts nor ends with whitespace is left as it is |
| Text.TrimLeftPadded | classes/gd_object_szr.py:102-103 | leading whitespace is dropped whatever its length |
| Text.TrimRightPadded | classes/gd_object_szr.py:102-103 | trailing whitespace is dropped whatever its length |
| Text.TrimLeftAppend | classes/gd_object_szr.py:102-103 | text that does not start with whitespace is left as it is, whatever follows |
| Text.TrimLeftSpaces | classes/gd_object_szr.py:102-103 | whitespace followed by whitespace strips to nothing |
| Text.TrimLeftKeepsTail | classes/gd_object_szr.py:102-103 | stripping the front of text that is not all whitespace keeps what follows it |
| Text.ParseIntPadded | classes/gd_object_szr.py:102-103 | `int` reads the same number however much whitespace (0x09 to 0x0D and the space) surrounds its text |
| Text.ParseIntAccepts | classes/gd_object_szr.py:102-103 | `int(' 5\n') == 5` and `int('-1_0') == -10` |
| Text.ParseIntRefuses | classes/gd_object_szr.py:102-103 | a doubled, leading or trailing underscore, a space after the sign, whitespace alone, and padding with the separators 0x1C or 0x1F (`'\x1c5'`, `'5\x1f'`) are refused |
| Text.SplitNoSeparator | classes/save_szr.py:39 | `s.split(c)` of a string without `c` is `[s]` |
| Text.SplitAfterSegment | classes/save_szr.py:39 | splitting `p + c + rest` gives `p` followed by the split of `rest` |
| Text.SplitJoin | classes/save_szr.py:39 | splitting a join recovers the parts when no part holds the separator |
| Text.JoinSplit | classes/save_szr.py:57 | joining a split gives the string back, and no part holds the separator |
| Recognizing.Apply | recognizing.py:20-132 | `__call__` of every recognizer kind (Sequence, Func, Key, Tuple, Nested, Map); its laws are `ChainApply`, `RunSequence`, `TupleAt`, `NestedIdentity` |
| Recognizing.Run | recognizing.py:35-38 | a Sequence applies its recognizers left to right, each on the previous result; partner `RunAppend`, `AsSequenceRun` |
| Recognizing.Chain | recognizing.py:23-24 | `a >> b` flattens both sides into one Sequence; partner `ChainAssociative`, `ChainApply` |
| Recognizing.AsSequence | recognizing.py:8-11 | a `Sequence` gives its recognizers, anything else the one-element tuple |
| Recognizing.ChainAssociative | recognizing.py:23-24 | `(a >> b) >> c == a >> (b >> c)`, and chains stay flat |
| Recognizing.Occurs | recognizing.py:70 | Python's `k in s` on strings: `k` is a substring of `s` |
| Recognizing.Contains | recognizing.py:70 | Python's `key in data`: dict keys, tuple items, substrings of a string for a string key; `TypeError` exactly for the other cases |
| Recognizing.Position | recognizing.py:75 | a tuple or string index: in range from either end, counted from the end when negative; otherwise `IndexError` |
| Recognizing.Subscript | recognizing.py:75 | Python's `data[key]`: a dict lookup, an integer (or bool) index into a tuple or string, `TypeError` for any other key or value |
| Recognizing.KeyOf | recognizing.py:69-76 | `key not in data`: the default if given, else `KeyError`, on dicts, tuples and strings alike; present key: `data[key]`, passed through the converter if one is set; a string key found in a string, a non-integer key found in a tuple, and data supporting no `in` are `TypeError` |
| Recognizing.KeyOfOtherData | recognizing.py:69-76 | `Key('a', default=0)((1, 2))` is 0, `Key('a')((1, 2))` a `KeyError`, `Key('a')('abc')` a `TypeError`, `Key(1)((5, 1))` is 1, and `Key` on an integer a `TypeError` |
| Recognizing.Convert | recognizing.py:127-132 | `Map.convert`: `TypeError` exactly for an unhashable value; the last entry for the value; else the `...` entry; else `KeyError` |
| Recognizing.RunAppend | recognizing.py:35-38 | running `s + t` runs `s`, then `t` on its result, stopping at the first error |
| Recognizing.AsSequenceRun | recognizing.py:8-11 | running `_as_sequence(r)` is calling `r` |
| Recognizing.ChainApply | recognizing.py:23-24 | `(a >> b)(data) == b(a(data))`, with the first error propagated |
| Recognizing.TupleAt | recognizing.py:87-88 | `Tuple` succeeds exactly when every part does, and its i-th result is the i-th part's result |
| Recognizing.NestedIdentity | recognizing.py:100-107 | a plain `Nested` (identity `convert`) whose inner recognizer returns a value behaves as its inner recognizer |
| Recognizing.DocExample | recognizing.py:114-123 | the `Map` docstring's equivalence, error cases included |
| Recognizing.ThenSeesOriginalData | recognizing.py:103-106 | a recognizer returned by the mapping is applied to the original data, not to the key |
| Recognizing.RunSequence | recognizing.py:35-38 | the loop of `Sequence.__call__` computes the sequence's recognition |
| Serializing.Analyze | serializing.py:48-264 | `analyze` of every serializer kind (Sequence, Key, Func, DictFields, DictFieldsOptimized, ToClass); inverse of `Compile` by the lemmas of `SerializingRoundTrip` |
| Serializing.FieldAnalyse | serializing.py:173-176 | `FieldCommon.analyse`: stores the serializer's result under the field's name unless it is `None`; partner `FieldAnalyseStores` |
| Serializing.AnalyzeFields | serializing.py:149-153 | `DictFields.analyze`: each field in turn into one dict, the first error winning; partner `AnalyzeDictFields`, `AnalyzeFieldsByKey` |
| Serializing.AnalyzeNamed | serializing.py:222-223 | the used fields' serializers, in first-use order, each result stored under its name; partner `AnalyzeNamedOk`, `AnalyzeNamedShape` |
| Serializing.FieldCompile | serializing.py:178-180 | `FieldCommon.compile`: the value under the field's name (`None` when absent) compiled into the sink; partner `CompileFieldsByKey` |
| Serializing.CompileInto | serializing.py:180 | a serializer's compile writing into an existing sink; used by `FieldCompile`, unfolded in `CompileFieldsByKey` |
| Serializing.CompileFields | serializing.py:155-160 | `DictFields.compile`: each field in turn into one sink; partner `CompileDictFields`, `DictFieldsRoundTrip` |
| Serializing.CompileNamed | serializing.py:238-240 | the named entries of the value compiled by their fields' serializers; used by `CompileOptimized`, partner `OptimizedRoundTrip` |
| Serializing.CompileOptimizedAsWritten | serializing.py:230-248 | `DictFieldsOptimized.compile` as written; the finding lemma `FromKeyCounterexample` shows where it differs from `CompileOptimized` |
| Serializing.KeyOwner | serializing.py:204-206 | `from_key[k]`: a field whose keys include `k`; none when no field lists it |
| Serializing.NameOwner | serializing.py:204-207 | `from_name[n]`: the last field named `n`; none when no field has that name |
| Serializing.UsedNames | serializing.py:214-218 | every name collected while scanning the data has a field in `from_name` |
| Serializing.Compile | serializing.py:25 | a compile that succeeds returns a sink exactly when it was given one |
| Serializing.CompileSeq | serializing.py:53-56 | the reversed compile loop keeps the same sink shape |
| Serializing.FromKeyCounterexample | serializing.py:238-240 | with a field `x` reading key `a`, analyze gives `{x: 5}`, the as-written compile drops it (and fails on `{a: 5}`), the corrected compile writes `{a: 5}` back |
| Serializing.ChainAssociative | serializing.py:35-36 | `(a >> b) >> c == a >> (b >> c)` |
| Serializing.SeqKeysAppend | serializing.py:58-60 | the keys of concatenated serializers are the concatenated keys |
| Serializing.ChainKeys | serializing.py:35-36 | `get_keys` of `a >> b` lists `a`'s keys, then `b`'s |
| Serializing.AnalyzeSeqAppend | serializing.py:48-51 | analyzing with `s + t` analyzes with `s`, then `t` |
| Serializing.AsSequenceAnalyze | serializing.py:32-33 | analyzing with `_as_sequence(r)` is analyzing with `r` |
| Serializing.ChainAnalyze | serializing.py:35-51 | `(a >> b).analyze` analyzes with `a` first, then `b` |
| Serializing.CompileSeqAppend | serializing.py:53-56 | compiling with `s + t` compiles with `t` first, then `s`, threading the sink |
| Serializing.AsSequenceCompile | serializing.py:32-33 | compiling with `_as_sequence(r)` is compiling with `r` |
| Serializing.ChainCompile | serializing.py:35-56 | `(a >> b).compile` compiles with `b` first, then `a` |
| Serializing.ChainRoundTrip | serializing.py:13-15 | if `b` and `a` each round-trip, so does `a >> b` |
| Serializing.KeyRoundTrip | serializing.py:76-83 | `Key.compile` writes the value under its key unless it equals the default, leaving other keys alone; analyze then reads it back; without a sink and a non-default value it is a `TypeError` |
| Serializing.FieldAnalyseStores | serializing.py:173-176 | `FieldCommon.analyse` stores the serializer's result under its name unless it is `None`, propagating its error |
| Serializing.UsedNamesDistinct | serializing.py:215-218 | the ordered set of used names has no repeats |
| Serializing.UsedNamesClaimed | serializing.py:216-218 | a name is used exactly when some data key is claimed by a field of that name |
| Serializing.UsedNamesPrefix | serializing.py:216-218 | scanning more of the data only adds used names |
| Serializing.UnclaimedLookup | serializing.py:219-220 | the unused-key dict holds exactly the data entries whose key no field claims |
| Serializing.AnalyzeNamedOk | serializing.py:222-223 | the used-name loop succeeds exactly when every used field's serializer does |
| Serializing.Entries | serializing.py:222-223 | one result entry per used name |
| Serializing.EntriesAt | serializing.py:222-223 | the i-th entry is the i-th used name with its field's analysis |
| Serializing.AnalyzeNamedShape | serializing.py:222-223 | the loop appends exactly those entries to the value |
| Serializing.AppendFresh | serializing.py:223 | setting a new key appends it |
| Serializing.OptimizedAnalyzeEntries | serializing.py:209-228 | `DictFieldsOptimized.analyze` fails exactly when a used field fails, and otherwise returns the used names, in first-use order, with their fields' results |
| Serializing.UnusedOnlyIfUnclaimed | serializing.py:219-226 | when every data key is claimed the `unused` field plays no part |
| Serializing.LookupDomain | serializing.py:216 | a key found in a dict is one of its items' keys |
| Serializing.UnusedOutputDropped | serializing.py:234-236 | the `unused` field's compile output goes to a throw-away dict and changes nothing |
| Serializing.ToClassDictRoundTrip | serializing.py:257-268 | for a class with `__dict__`, analyze wraps the dict and compile returns it |
| Serializing.SlotValuesLookup | serializing.py:269 | the slot comprehension succeeds exactly when every slot is set, and holds exactly the slots' values |
| Serializing.ToClassSlotsRoundTrip | serializing.py:262-269 | for a slotted class whose data sets exactly its slots, compile after analyze gives the same lookups |
| Serializing.AnalyzeOptimized | serializing.py:209-228 | the loops of `DictFieldsOptimized.analyze` compute the optimized analysis |
| Serializing.SplitKeys | serializing.py:214-220 | the first loop: the names of the claiming fields in first-claimed order, and the unclaimed items only when there is an `unused` field |
| Serializing.AnalyzeNamedLoop | serializing.py:222-223 | the second loop: each used name's field analyses the whole data, in order, stopping at the first failure |
| Serializing.CompileOptimized | serializing.py:230-245 | the loops of the corrected `DictFieldsOptimized.compile` compute its compile |
| Serializing.AnalyzeDictFields | serializing.py:149-153 | the loop of `DictFields.analyze` computes its analysis, which `SerializingRoundTrip.AnalyzeFieldsByKey` characterises field by field |
| Serializing.CompileDictFields | serializing.py:155-160 | the loop of `DictFields.compile` computes its compile, creating the dict when none is given; `SerializingRoundTrip.CompileFieldsByKey` says what it writes and `SerializingRoundTrip.DictFieldsRoundTrip` that it inverts the analysis |
| Serializing.AnalyzeSequence | serializing.py:48-51 | the loop of `Sequence.analyze` computes its analysis |
| Serializing.CompileSequence | serializing.py:53-56 | the reversed loop of `Sequence.compile` computes its compile |
| SerializingRoundTrip.NameOwnerAt | serializing.py:207 | with distinct names each field is `from_name` of its own name |
| SerializingRoundTrip.KeyOwnerAt | serializing.py:205-206 | with one key per field, `from_key[k]` is the field reading `k` |
| SerializingRoundTrip.Raw | serializing.py:238-240 | the raw entries written for analyzed items: each field's key with the item's value |
| SerializingRoundTrip.RawCons | serializing.py:238-240 | the raw entries of items are the first item's entry followed by the rest's |
| SerializingRoundTrip.InsertConcat | serializing.py:83 | writing a key and then more entries looks up as the appended entries |
| SerializingRoundTrip.CompileNamedKeys | serializing.py:238-240 | the corrected compile loop succeeds and writes each field's key with its value |
| SerializingRoundTrip.KeyFor | serializing.py:205-207 | the key of the field named `n` |
| SerializingRoundTrip.UsedKeysPresent | serializing.py:216-218 | every used name's key is present in the data |
| SerializingRoundTrip.AnalyzeKeyFields | serializing.py:209-228 | with key fields, analysis succeeds and reads each used field's key |
| SerializingRoundTrip.KeyForDistinct | serializing.py:205-207 | distinct used names have distinct keys |
| SerializingRoundTrip.RawItems | serializing.py:238-240 | the raw entries of an analysis have distinct keys, each holding the data's value |
| SerializingRoundTrip.RawLookup | serializing.py:238-240 | when every key is claimed, the raw entries look up exactly like the data |
| SerializingRoundTrip.CompileOptimizedNoSink | serializing.py:230-245 | without `unused` and a sink, compile is the name loop on an empty dict |
| SerializingRoundTrip.OptimizedRoundTrip | serializing.py:13-15 | with one `Key` per field and every key claimed, compile after analyze gives back a dict that looks up as the data |
| SerializingRoundTrip.CompiledEntries | serializing.py:230-245 | compiling analysed entries with the corrected membership test gives a dict that looks up like the raw data |
| SerializingRoundTrip.Stored | serializing.py:173-176 | a value read that is not `None` is stored under the field's name; `None` leaves the name as it was |
| SerializingRoundTrip.AnalyzeFieldsByKey | serializing.py:149-153 | with fields that each read one raw key, `DictFields.analyze` fails, with `KeyError`, exactly when some field's key is missing; otherwise each field's name holds the value read from its key (a `None` leaves the name unset) and no other name is set |
| SerializingRoundTrip.CompileFieldsByKey | serializing.py:155-160 | with fields that each read one raw key, `DictFields.compile` writes under each field's key the value's entry under the field's name, `None` when it has none, and changes no other key of the sink |
| SerializingRoundTrip.DictFieldsRoundTrip | serializing.py:149-160 | a raw dict holding exactly the fields' keys is analysed without error, and compiling the result gives a dict that looks up like the raw one, `None` values included |
| SerializingRoundTrip.RoundTripAt | serializing.py:149-160 | one key of that round trip: a field's key reads back its raw value, any other key is absent from both |
| Funcs.Lookup | tools/funcs.py:1-3 | `d.get(k)` on an insertion-ordered dict; partner `LookupInsert`, `LookupFront`, `LookupSome` |
| Funcs.Insert | tools/funcs.py:1-3 | `d[k] = v`: overwrites in place or appends a new key; partner `LookupInsert` |
| Funcs.DictOf | tools/funcs.py:1-3 | `dict(items)`: later pairs win; partner `DictOfLaterWins`, `DictOfDistinct` |
| Funcs.Pairs2Dict | tools/funcs.py:1-3 | `pairs2dict`: alternating elements as key and value; partner `Pairs2DictLookup`, inverse of `Dict2Pairs` by `Pairs2DictRoundTrip` |
| Funcs.Dict2Pairs | tools/funcs.py:5-6 | `dict2pairs`: each entry as key then value; partner `Dict2PairsAt`, `Pairs2DictRoundTrip` |
| Funcs.Zipped | tools/funcs.py:1-3 | `zip(i, i)` over one iterator pairs element 2i with 2i+1 and drops an odd last element |
| Funcs.LookupInsert | tools/funcs.py:1-3 | after `d[k] = v`, looking up `k` gives `v` and every other key is unchanged |
| Funcs.LookupFront | tools/funcs.py:1-3 | in a dict with distinct keys a lookup may be read from the front |
| Funcs.LookupSome | tools/funcs.py:1-3 | a key is stored exactly when it is some item's key |
| Funcs.DictOfLaterWins | tools/funcs.py:1-3 | `dict(items)` has distinct keys and keeps the last value given for each key |
| Funcs.Pairs2DictLookup | tools/funcs.py:1-3 | `pairs2dict`: each even element is a key mapped to the next one, later pairs winning |
| Funcs.Dict2PairsAt | tools/funcs.py:5-6 | `dict2pairs` yields twice as many elements, key then value, in dict order |
| Funcs.DictOfDistinct | tools/funcs.py:1-3 | rebuilding a dict with distinct keys from its items gives it back |
| Funcs.Pairs2DictRoundTrip | tools/funcs.py:1-6 | `pairs2dict(dict2pairs(d)) == d` |
| Decompressing.XorBytes | tools/decompressing.py:11-12 | every byte is XOR-ed with the key byte |
| Decompressing.XorBytesInvolution | tools/decompressing.py:11-12 | XOR with a fixed key keeps the length and undoes itself |
| Decompressing.XorByteTwice | tools/decompressing.py:11-12 | one byte XOR-ed twice with the same key is unchanged |
| Decompressing.RemovePad | tools/decompressing.py:14-18 | `save[:-save[-1]]` when the last byte `p` is at most 16: an empty input is an `IndexError`; otherwise the last `p` bytes are dropped, or all of them when `p` is 0 or at least the length; the pad bytes are not checked; a last byte above 16 keeps the data as it is |
| Decompressing.PadLength | tools/decompressing.py:27-32 | `((-len(data) - 1) % 16) + 1` |
| Decompressing.PadLengthBounds | tools/decompressing.py:27-32 | the pad length is between 1 and 16 and brings the length to a multiple of 16 |
| Decompressing.Padded | tools/decompressing.py:27-32 | the data followed by `pad` copies of the byte `pad` |
| Decompressing.RemovePadded | tools/decompressing.py:14-32 | removing the padding of padded data gives the data back |
| Decompressing.DecryptDispatch | tools/decompressing.py:20-25 | an empty input is an `IndexError`; a first byte `C` selects the XOR-11 path, anything else the AES path |
| Decompressing.EncryptedTakesXorPath | tools/decompressing.py:20-32 | the non-iOS output of `encrypt_save_xml` is read back through the XOR path, which recovers the compressed bytes |
| Decompressing.XorByteValue | tools/decompressing.py:22 | `ord('C') ^ 11` is the first byte `H` of a gzip-in-base64 stream |
| Vector2.Neg | tools/vector2.py:75-76 | componentwise negation; partner `NegNeg`, `SubInverse` |
| Vector2.Sub | tools/vector2.py:82-84 | the corrected `a - b`; inverse of `Add` by `SubInverse` |
| Vector2.Dot | tools/vector2.py:98-100 | `x1*x2 + y1*y2`; partner `DotLaws` |
| Vector2.Cross | tools/vector2.py:102-104 | the 2D cross product; partner `CrossLaws` |
| Vector2.FloorDiv | tools/vector2.py:92-93 | Python's `//`: the quotient rounded toward negative infinity |
| Vector2.FloorMod | tools/vector2.py:95-96 | Python's `%`: the remainder takes the divisor's sign and is smaller than it in size |
| Vector2.FloorDivMod | tools/vector2.py:92-96 | `a == (a // b) * b + a % b` for every non-zero `b` |
| Vector2.Add | tools/vector2.py:78-80 | component-wise sum |
| Vector2.SubAsWritten | tools/vector2.py:82-84 | `__sub__` as written returns the component-wise sum |
| Vector2.Mul | tools/vector2.py:86-87 | both components scaled by `k` |
| Vector2.Div | tools/vector2.py:92-93 | component-wise floor division; `ZeroDivisionError` for a zero divisor |
| Vector2.Mod | tools/vector2.py:95-96 | component-wise Python remainder; `ZeroDivisionError` for a zero divisor |
| Vector2.Length2 | tools/vector2.py:109-110 | the squared length is never negative and is zero only for the zero vector |
| Vector2.NegNeg | tools/vector2.py:75-76 | negation undoes itself and adds to zero |
| Vector2.AddLaws | tools/vector2.py:78-80 | addition is commutative and associative with the zero vector as identity |
| Vector2.SubAsWrittenCounterexample | tools/vector2.py:82-84 | `(0, 0) - (1, 0)` as written gives `(1, 0)` instead of `(-1, 0)` |
| Vector2.SubInverse | tools/vector2.py:82-84 | corrected subtraction undoes addition and is addition of the negation |
| Vector2.DivModRecombine | tools/vector2.py:92-96 | `v // k * k + v % k == v` component-wise |
| Vector2.DotLaws | tools/vector2.py:98-100 | the dot product is symmetric, and a vector's dot with itself is its squared length |
| Vector2.CrossLaws | tools/vector2.py:102-104 | the cross product is anti-symmetric and zero for a vector with itself |
| Plist.Decode | tools/plist.py:11-29 | `_xml_to_json`: leaf tags to scalars, `d` children pairwise to a dict, a dict with `_isArr` to a list; other tags are a `ValueError`; inverse of `Encode` by `RoundTrip` |
| Plist.DecodeDict | tools/plist.py:23-29 | the `d` branch: an odd child count fails, an `_isArr` dict becomes its `k_i` items; partner `DictRoundTrip`, `OddChildrenFail` |
| Plist.DecodeEntries | tools/plist.py:25-26 | children read as key/value pairs, the first error winning; unfolded by `DecodeEntriesStep` |
| Plist.ArrayItems | tools/plist.py:29 | the list `[d[f'k_{i}'] for i in range(len(d) - 1)]`, a missing key being a `KeyError`; partner `ArrayItemsLookup` |
| Plist.Encode | tools/plist.py:31-49 | `_json_to_xml`: scalars to leaf tags, a list to an `_isArr` dict, a dict to alternating key and value children; inverse of `Decode` by `RoundTrip` |
| Plist.EncodeItems | tools/plist.py:40-48 | the elements of a list from position `start`, each as a `k_i` key then its encoded value; partner `EncodeItemsRoundTrip` |
| Plist.EncodeEntries | tools/plist.py:45-48 | a dict's entries from position `i` as key/value children; partner `EncodeEntriesRoundTrip` |
| Plist.Leaf | tools/plist.py:3-9 | `xml_elem(tag, text)` has no children and keeps only a non-empty text |
| Plist.ArrPairs | tools/plist.py:41 | one `k_i` entry per list element |
| Plist.KeyNameFacts | tools/plist.py:41 | the key names `k_i` are distinct, not empty, and never `_isArr` |
| Plist.DecodeEntriesStep | tools/plist.py:25-26 | decoding a key/value pair of children, then the rest, with the first error winning |
| Plist.EncodeItemsRoundTrip | tools/plist.py:41-48 | the children written for list elements decode to their `k_i` pairs |
| Plist.ArrPairsCons | tools/plist.py:41 | the `k_i` pairs of a list are the first element's pair followed by the rest's |
| Plist.EncodeEntriesRoundTrip | tools/plist.py:45-48 | the children written for dict entries with non-empty keys decode back to those entries |
| Plist.ArrayItemsLookup | tools/plist.py:29 | `[d[f'k_{i}'] for i in range(...)]` on an encoded list gives the list's elements |
| Plist.ListPairsDistinct | tools/plist.py:41 | the dict a list is written as has distinct keys |
| Plist.ListPairsDecode | tools/plist.py:27-29 | a decoded dict with `_isArr` and the `k_i` entries becomes that list again |
| Plist.ListRoundTrip | tools/plist.py:11-49 | a well-formed list survives encode then decode |
| Plist.DictRoundTrip | tools/plist.py:11-49 | a well-formed dict survives encode then decode |
| Plist.RoundTrip | tools/plist.py:11-49 | every well-formed value survives `_json_to_xml` then `_xml_to_json` |
| Plist.EmptyKeyReadsAsNone | tools/plist.py:5-6 | an empty dict key is written without text and reads back as the key `None` |
| Plist.OddChildrenFail | tools/plist.py:26 | an odd number of children in a dict element always fails, with `ValueError` when every value decodes |
| ObjectCodecs.BoolAnalyze | classes/gd_object_szr.py:210 | text `'1'` is true, anything else false; inverse of `BoolCompile` by `BoolRoundTrip` |
| ObjectCodecs.BoolCompile | classes/gd_object_szr.py:210 | true as `'1'`, false as `'0'`; partner `BoolRoundTrip` |
| ObjectCodecs.GdIdCompile | classes/gd_object_szr.py:105-106 | `str(value.get_value())`; inverse of `GdIdAnalyze` by `GdIdRoundTrip` |
| ObjectCodecs.RotateAnalyze | classes/gd_object_szr.py:700-703 | `degrees + 360 * times_360`; partner `RotateRoundTrip` |
| ObjectCodecs.RotateCompile | classes/gd_object_szr.py:704-705 | `(value % 360, value // 360)` with Python's floor division; partner `RotateRoundTrip` |
| ObjectCodecs.PickupAnalyze | classes/gd_object_szr.py:404-409 | mode 0 with override is `Override`, else the mode by value; partner `PickupOf`, `PickupRoundTrip` |
| ObjectCodecs.PickupCompile | classes/gd_object_szr.py:410-413 | `Override` as `(0, True)`, any other mode as `(value, False)`; partner `PickupRoundTrip` |
| ObjectCodecs.CollisionAnalyze | classes/gd_object_szr.py:500-505 | the third flag gives `PP`, else the inverse table; partner `CollisionInverse`, `CollisionRoundTrip` |
| ObjectCodecs.CollisionCompile | classes/gd_object_szr.py:491-507 | the table `dct`; partner `CollisionRoundTrip` |
| ObjectCodecs.LockAnalyze | classes/gd_object_szr.py:625-636 | the lock from the two flags, unlocked when neither or both are set or the modifier is 0; partner `LockAnalyzeUnlocked`, `LockRoundTrip` |
| ObjectCodecs.LockCompile | classes/gd_object_szr.py:637-647 | `No` or a zero modifier as `(False, False, 1.)`, `Player` and `Camera` set their flag and keep the modifier, anything else is a `TypeError`; partner `LockRoundTrip` |
| ObjectCodecs.ItemTypeCompile | classes/gd_object_szr.py:799-816 | the constant items and timers as id 0 with their type, other counters as their id with `Item` or `Timer`; partner `ItemTypeRoundTrip` |
| ObjectCodecs.DecideAnalyze | classes/gd_object_szr.py:885-890 | a timer when the flag is set, else an item; partner `DecideRoundTrip` |
| ObjectCodecs.DecideCompile | classes/gd_object_szr.py:891-892 | the id and whether it is a timer; partner `DecideRoundTrip` |
| ObjectCodecs.BoolRoundTrip | classes/gd_object_szr.py:209 | every boolean survives `'1' if x else '0'` then `s == '1'`; a string survives the other way exactly when it is `0` or `1` |
| ObjectCodecs.GdIdAnalyze | classes/gd_object_szr.py:102-103 | `kind(int(data))` succeeds exactly when `int` accepts the text (whitespace around it, an optional sign, digits with single underscores between them) and gives a handle of that category |
| ObjectCodecs.GdIdRoundTrip | classes/gd_object_szr.py:102-106 | a handle written with `str(get_value())` and read back is the same handle |
| ObjectCodecs.RotateRoundTrip | classes/gd_object_szr.py:699-705 | compiled degrees lie in [0, 360) and read back as the same angle; a raw pair survives exactly when its degrees are in range |
| ObjectCodecs.PickupOf | classes/gd_object_szr.py:408 | `PickupMode(code)` succeeds exactly for 0..3 and gives the member with that code |
| ObjectCodecs.PickupRoundTrip | classes/gd_object_szr.py:403-413 | every mode reads back as itself; `(0, True)` is `Override`; a raw pair is accepted for modes 0..3 and survives only in its canonical form |
| ObjectCodecs.CollisionInverse | classes/gd_object_szr.py:492-498 | `dct.inv[t]` is defined exactly on the table's triples and maps back to the member |
| ObjectCodecs.CollisionRoundTrip | classes/gd_object_szr.py:491-507 | the table is injective, every member reads back as itself, `pp` wins, and a triple survives exactly when `pp` is clear or it is `(F, F, T)` |
| ObjectCodecs.LockRoundTrip | classes/gd_object_szr.py:625-647 | no lock or a zero modifier compiles to `(False, False, 1.)`; compile raises `TypeError` exactly for a non-lock value with a non-zero modifier; otherwise analyze reads the lock back |
| ObjectCodecs.LockAnalyzeUnlocked | classes/gd_object_szr.py:625-635 | both flags equal or a zero modifier read as `Lock.No`, and only then |
| ObjectCodecs.ItemTypeAnalyze | classes/gd_object_szr.py:781-797 | `TypeError` exactly for an unknown item type; otherwise an item or timer handle |
| ObjectCodecs.ItemTypeRoundTrip | classes/gd_object_szr.py:780-816 | compile accepts exactly items and timers; they read back as themselves except `Timer.Empty`, which reads back as `Item.Empty`; the constants compile to their type codes |
| ObjectCodecs.DecideRoundTrip | classes/gd_object_szr.py:884-892 | items and timers read back as themselves, and every raw pair survives |
| GdObjectSzr.Folded | classes/gd_object_szr.py:50-57 | the keys and fields combined over the registered bases, left to right; equal to `CombineAll` over `Registered` by `FoldedRegistered` |
| GdObjectSzr.CombineAll | classes/gd_object_szr.py:50-57 | the keys and fields combined over a list of registered classes; partner `FoldedRegistered` |
| GdObjectSzr.FlagOf | classes/gd_object_szr.py:180-181 | `R.Key(k, bool, False)`: Python truth of the raw value, false when absent; partner `FlagRead`, `TupleFlags` |
| GdObjectSzr.ModeOf | classes/gd_object_szr.py:182-186 | the Move/Rotate mode map from the two flags, both set being a `KeyError`; partner `ModeMapDispatch`, `MoveDispatch` |
| GdObjectSzr.ClassFor | classes/gd_object_szr.py:174-199 | the mode map for Move and Rotate, else the last table entry for the id, else `GdObjectAnyId`; partner `RecognizeObject`, `RecognizeDefaults` |
| GdObjectSzr.ParseRecord | classes/gd_object_szr.py:83 | `pairs_to_dict(data.split(','))`; inverse of `FormatRecord` by `RecordRoundTrip` |
| GdObjectSzr.FormatRecord | classes/gd_object_szr.py:95 | `','.join(dict_to_pairs(value))` for a record of strings; partner `RecordRoundTrip` |
| GdObjectSzr.CompileObject | classes/gd_object_szr.py:90-95 | the class's serializer, then `'1'` set to a special class's id; partner `CompileRecord`, `CompiledIdRecognized` |
| GdObjectSzr.ReversedBases | classes/gd_object_szr.py:47 | `klass.__mro__[:0:-1]`: the MRO without the class itself, reversed |
| GdObjectSzr.ClassesOf | classes/gd_object_szr.py:49 | the explicit bases without `...`, each kept |
| GdObjectSzr.Registered | classes/gd_object_szr.py:52-54 | the bases that have a registered info, in order; the others are skipped |
| GdObjectSzr.FoldedRegistered | classes/gd_object_szr.py:52-57 | folding over all bases while skipping unknown ones combines exactly the registered bases' keys and fields |
| GdObjectSzr.InheritableFields.constructor | classes/gd_object_szr.py:34-36 | no infos yet; the serializer table given, or an empty one |
| GdObjectSzr.InheritableFields.Make | classes/gd_object_szr.py:38-71 | `KeyError` with nothing changed for an already made class; otherwise the combined serializer (keys, fields, then `ToClass`) is recorded in both tables and returned |
| GdObjectSzr.ClassEntries | classes/gd_object_szr.py:176 | one mapping entry per special id, mapping the id to its class |
| GdObjectSzr.LastIndexAppend | classes/gd_object_szr.py:176-198 | in `a | b` an entry of `b` wins over one of `a` |
| GdObjectSzr.FlagRead | classes/gd_object_szr.py:180-181 | `Key(k, bool, False)`: a missing key is false, a present one is Python's truth of its string |
| GdObjectSzr.TupleFlags | classes/gd_object_szr.py:179-182 | the tuple of the two mode flags |
| GdObjectSzr.ModeConvert | classes/gd_object_szr.py:182-186 | `(F, F)`, `(T, F)`, `(F, T)` select the three classes; `(T, T)` is a `KeyError` |
| GdObjectSzr.ModeMapDispatch | classes/gd_object_szr.py:178-197 | the mode map recognizes by the two flags of the record |
| GdObjectSzr.HeadId | classes/gd_object_szr.py:175 | `Key('1', int, default=0)`: 0 when key `1` is missing, else `int` of it, with `int`'s `ValueError` for text it refuses |
| GdObjectSzr.TableEntry | classes/gd_object_szr.py:176-198 | an id finds the move and rotate entries, else its special class, else the `...` entry |
| GdObjectSzr.RecognizeObject | classes/gd_object_szr.py:174-199 | the recognizer: read the id, then the special class, the move/rotate mode class, or `GdObjectAnyId` |
| GdObjectSzr.RecognizeDefaults | classes/gd_object_szr.py:175-177 | a record without key `1` is recognized as id 0; an id without a special class gives `GdObjectAnyId` |
| GdObjectSzr.MoveDispatch | classes/gd_object_szr.py:178-187 | a move trigger is `MoveBy`, `MoveTo` or `MoveAt` by its two flags, `KeyError` for both; a flag written `0` reads as true |
| GdObjectSzr.Lifted | classes/gd_object_szr.py:83 | the string pairs of a record as dict items, in order |
| GdObjectSzr.AnalyzeObject | classes/gd_object_szr.py:82-88 | `GdObjectSerialzier.analyze`: a recognizer error propagates; a recognized class with a serializer is analyzed with it; any other result (a class without a serializer, or not a class) is analyzed with the `GdObjectAnyId` serializer, and is a `KeyError` when that one is missing too |
| GdObjectSzr.Lowered | classes/gd_object_szr.py:95 | a dict of strings lowered to string pairs lifts back to itself |
| GdObjectSzr.CompileRecord | classes/gd_object_szr.py:90-94 | compiles only an object whose class has a serializer; a special class's record holds `str(__id__)` under key `1` |
| GdObjectSzr.LookupInserted | classes/gd_object_szr.py:94 | after `value['1'] = ...` the key reads that value |
| GdObjectSzr.InsertedAt | classes/gd_object_szr.py:94 | the inserted pair is one of the dict's items |
| GdObjectSzr.RecordRoundTrip | classes/gd_object_szr.py:83-95 | `pairs_to_dict(','.join(dict_to_pairs(d)).split(',')) == d` when no key or value holds a comma |
| GdObjectSzr.CompiledIdRecognized | classes/gd_object_szr.py:82-95 | the string compiled for a special object parses back to its record, and the recognizer finds the class for its id |
| GdObjectSzr.RecognizeWithId | classes/gd_object_szr.py:174-199 | a record whose `'1'` is the text of an id is dispatched as that id |
| GdObjects.IdForName | data/special_ids.py:132 | `special_ids.inv[name]`: an id found is paired with the name; none means no entry has that name |
| GdObjects.IdForNameUnique | data/special_ids.py:132 | in a bidict, `inv[name] == id` exactly when `(id, name)` is an entry |
| GdObjects.InheritedId | classes/gd_object.py:33 | `getattr(cls, '__id__', None)` without an own value: an id found is that of some created subclass in the MRO |
| GdObjects.AssignedId | classes/gd_object.py:32-35 | an own or inherited `__id__` is kept; otherwise the name's id in `special_ids`, `KeyError` exactly when no entry has the name |
| GdObjects.SpecialClasses.constructor | classes/gd_object.py:20-22 | no subclass yet; `SpecialId.__id__` is `None` |
| GdObjects.SpecialClasses.InitSubclass | classes/gd_object.py:32-35 | creating a subclass records its assigned id; on `KeyError` the class is not recorded |
| GdObjects.SpecialClasses.SetId | classes/gd_object.py:28-30 | assigning `id` on a special object always raises `AttributeError` |
| GdObjects.ChildKeepsParentId | classes/gd_object.py:33-34 | a subclass of a created special class inherits its id, even when its own name has another id in the table |
| GdObjects.DirectSubclassId | classes/gd_object.py:32-35 | a direct subclass of `SpecialId` gets exactly its name's id, and fails exactly when its name is missing |
| GdObjects.AnyIdObject.constructor | classes/gd_object.py:15-17 | `AnyId(id)` stores its own id |
| GdObjects.AnyIdObject.SetId | classes/gd_object.py:15-17 | assigning `id` on an `AnyId` object stores it on that object |
| GdObjects.IdsPerInstance | classes/gd_object.py:15-40 | two `GdObjectAnyId` objects carry independent ids, while all instances of a special class read the one class id, which assignment cannot change |
| Vector2Abc.Vector2Abc.constructor | tools/vector2abc.py:43-50 | `__init__`: a missing coordinate takes the class default, and both go through the converter |
| Vector2Abc.Vector2Abc.Create | tools/vector2abc.py:37-41 | `__create__` stores both coordinates without conversion |
| Vector2Abc.Vector2Abc.SetAttr | tools/vector2abc.py:47-50 | assigning a coordinate stores its converted value and leaves the other alone |
| Vector2Abc.Vector2Abc.Iter | tools/vector2abc.py:52-57 | iteration yields `x` then `y`, as many elements as `len` says |
| Vector2Abc.Vector2Abc.Get | tools/vector2abc.py:62-67 | indices 0, 1, -2, -1 read `x`, `y`, `x`, `y`; any other index is an `IndexError` |
| Vector2Abc.Vector2Abc.SetItem | tools/vector2abc.py:69-77 | a valid index then reads the converted value; an invalid one is an `IndexError` with nothing changed; a negative index re-converts the other coordinate |
| Vector2Abc.Vector2Abc.Reversed | tools/vector2abc.py:79-80 | a new vector with the coordinates swapped, passed through the converter |
| Vector2Abc.Vector2Abc.Clone | tools/vector2abc.py:85-86 | a new vector equal to this one |
| Vector2Abc.Vector2Abc.Replace | tools/vector2abc.py:88-91 | a new vector with the given coordinates replaced and the others kept |
| Vector2Abc.EqLaws | tools/vector2abc.py:82-83 | equality is reflexive and symmetric and never holds for a non-vector |
| Saves.LevelInfo.constructor | classes/save.py:24-29 | a level info holds its name, data, revision and description |
| Saves.LevelInfo.Clone | classes/save.py:53-57 | a fresh copy with every field equal, renamed when a new name is given |
| Saves.ExtractNameRevision | classes/save.py:75-79 | a bare name has no revision, a pair gives both; inverse of `KeyOf` by `ExtractRoundTrip` |
| Saves.KeyOf | classes/save.py:75-79 | the query form of a name and optional revision; partner `ExtractRoundTrip` |
| Saves.Matches | classes/save.py:104-108 | same name, and same revision unless none was asked for; partner `FirstMatch`, `HasPair` |
| Saves.KeysExcept | classes/save.py:123 | the `(name, revision)` pairs of the stored levels outside `skip`; partner `KeysExceptHolds`, `KeysExceptFresh` |
| Saves.ExtractRoundTrip | classes/save.py:77-81 | `_extract_name_revision` gives no revision exactly for a plain name, and inverts building the key |
| Saves.FirstMatch | classes/save.py:104-108 | the first level with the name (and the revision, when one is given); none when no level matches |
| Saves.KeysExceptHolds | classes/save.py:123 | the `(name, revision)` pairs of the stored levels other than the skipped ones, and only those |
| Saves.NextFree | classes/save.py:123-124 | the smallest revision from the given one on that no stored level of that name has |
| Saves.Save.constructor | classes/save.py:84-89 | a save holds the given levels in order |
| Saves.Save.Has | classes/save.py:102-109 | `has(key)` is true exactly when some level matches the key |
| Saves.Save.Get | classes/save.py:111-120 | the first matching level; else the default when one is given; else `KeyError` |
| Saves.Save.Add | classes/save.py:122-125 | a level not yet stored goes in front with its revision raised to the first one free among the stored levels, and nothing else of it changes; a level already stored is a no-op: the deque and the level stay as they were (the corrected half: see Findings) |
| Saves.Save.Clone | classes/save.py:127-131 | `KeyError` with nothing changed when no level matches; otherwise a fresh copy of the first match, renamed if asked, goes in front with the first free revision, and the original is untouched |
| Saves.KeysExceptFresh | classes/save.py:123 | skipping a level that is not stored skips nothing |
| Saves.HasPair | classes/save.py:102-109 | `has((name, revision))` is membership of that pair among the stored levels |
| Saves.AddGuardAgrees | classes/save.py:123 | for a level not yet stored, the `has` test of the source holds exactly when another stored level holds the name and revision |
| Saves.AddAsWrittenNeverExits | classes/save.py:123-124 | for a level already stored, `has((level.name, level.revision))` holds whatever its revision, so the loop never ends |
| Saves.AddedRevisionUnique | classes/save.py:123-124 | the revision `add` picks is free, no smaller one from the start is, and a free revision is kept as it is |
| SaveSzr.FrameCompile | classes/save_szr.py:57 | settings, the objects and a trailing empty part joined with `;`; inverse of `FrameAnalyze` by `FrameRoundTrip` |
| SaveSzr.LevelAnalyze | classes/save_szr.py:37-49 | the frame split, settings read as pairs, every object decoded; inverse of `LevelCompile` by `LevelRoundTrip` |
| SaveSzr.LevelCompile | classes/save_szr.py:51-59 | every object encoded, settings written as pairs, then the frame; partner `LevelRoundTrip` |
| SaveSzr.FrameAnalyze | classes/save_szr.py:39 | `settings, *objects, _ = data.split(';')` |
| SaveSzr.FrameTooShort | classes/save_szr.py:39 | the unpacking raises `ValueError` exactly when the string holds no `;` |
| SaveSzr.FrameRoundTrip | classes/save_szr.py:39-57 | splitting the joined string recovers the settings and object records when none holds `;` |
| SaveSzr.FrameAnalyzeCompile | classes/save_szr.py:39-57 | re-joining what was split gives the string back exactly when its discarded last segment is empty |
| SaveSzr.MapAll | classes/save_szr.py:48 | the list comprehension succeeds exactly when every element does, with the results in order |
| SaveSzr.SettingsRecordFits | classes/save_szr.py:56 | the joined settings record holds no `;` when no key or value does |
| SaveSzr.JoinFree | classes/save_szr.py:56-57 | a join holds a character other than its separator only if some part does |
| SaveSzr.LevelRoundTrip | classes/save_szr.py:37-59 | analyze recovers the settings and objects from what compile wrote, when the object codec round-trips and no record holds a separator |
| SaveSzr.IntKeyAnalyze | classes/save_szr.py:19 | `int` of the text; only a `ValueError` can occur |
| SaveSzr.IntKeyRoundTrip | classes/save_szr.py:19 | every integer survives `str` then `int`, and `int` fails exactly on the text `Text.ParseInt` refuses |
| SaveSzr.CheckLlm03 | classes/save_szr.py:121-127 | nothing is reported for an empty list, any other value is reported as it is |
| IgnoreDefaults.ProduceAsWritten | ignore_default.py:32-44 | `get` as written; `TakesSelfMissed` shows where it differs from `Produce` |
| IgnoreDefaults.CallsWithSelf | ignore_default.py:37 | the corrected test: the instance is passed only when `takes_self` was given as true; used by `Produce` |
| IgnoreDefaults.Winner | ignore_default.py:95-114 | the field kept for a name: explicit entry, then attrs attribute, then the first base; `MergeDefaultFields` is proved against it |
| IgnoreDefaults.Validate | ignore_default.py:23-30 | construction raises `TypeError` exactly for a default and a factory together, a mutable default, or `takes_self` without a factory |
| IgnoreDefaults.Produce | ignore_default.py:32-41 | the value of `get`: only `TypeError` can occur, and a made value comes from the field's factory |
| IgnoreDefaults.ProduceValid | ignore_default.py:32-41 | for a valid field, `get` fails exactly when it has neither a default nor a factory; the default is returned as is; the factory gets `self` exactly when `takes_self` is true |
| IgnoreDefaults.TakesSelfMissed | ignore_default.py:37 | a factory field without `takes_self` calls the factory with the instance as written, and without it as intended |
| IgnoreDefaults.SafeGetFlag.Not | ignore_default.py:50-52 | `SafeGet.Not` carries the opposite flag |
| IgnoreDefaults.NotNot | ignore_default.py:50-58 | `Not` undoes itself and always changes the flag |
| IgnoreDefaults.Instance.constructor | ignore_default.py:128-132 | a new instance stores nothing in its `__dict__` |
| IgnoreDefaults.Instance.Get | ignore_default.py:32-44 | a mutable field's value is stored only inside a false `SafeGet` context; with no context it is a `RuntimeError`; other fields never store |
| IgnoreDefaults.Instance.GetAttr | ignore_default.py:134-139 | a stored attribute first; else the default field's `get`; else `AttributeError` |
| IgnoreDefaults.Instance.SetAttr | ignore_default.py:141-144 | assigning `Missed` removes the attribute, any other value stores it |
| IgnoreDefaults.Instance.InitField | ignore_default.py:116-126 | the generated `__init__`: an argument given is stored; a default field's missing argument leaves the attribute unset; another field takes its attrs default |
| IgnoreDefaults.InitDefault | ignore_default.py:121-124 | the default the generated `__init__` sees is `Missed` exactly for a default field |
| IgnoreDefaults.SafeGetAttr | ignore_default.py:65-72 | `SafeGet[obj].name` reads under the flag and stores the made value only for a false flag |
| IgnoreDefaults.SafeGetDemo | ignore_default.py:151-177 | the module's demonstration: `SafeGet[foo].bar` leaves `__dict__` empty, `SafeGet.Not[foo].bar` stores `bar` |
| IgnoreDefaults.FromAttribute | ignore_default.py:100-110 | an attrs default becomes a valid field, mutable exactly for a `Factory` |
| IgnoreDefaults.LastAttr | ignore_default.py:99-110 | the attribute named `n` that sets the field has a default |
| IgnoreDefaults.MergeDefaultFields | ignore_default.py:95-114 | the loops leave exactly the winning field for every name: explicit entries, then attrs attributes, then the first base |
| IgnoreDefaults.MergeOrder | ignore_default.py:97-113 | an explicit entry beats an attrs default, which beats a base; among bases the first listed wins |
| Makers.Merged | maker.py:23 | every key of the three layers, with the call's value first, then the item's default, then the maker's |
| Makers.MergedLayers | maker.py:23 | a call argument is never overridden by a default, and an empty layer changes nothing |
| Makers.Maker.constructor | maker.py:28-31 | a new maker has no items and no defaults |
| Makers.Maker.Setup | maker.py:39-44 | `setup` replaces the maker's defaults and keeps its items |
| Makers.Maker.Call | maker.py:46-49 | `maker(key)` creates an item with empty defaults on first use and returns the same item afterwards |
| Makers.Maker.GetItem | maker.py:51-52 | `maker[key]` is the item made for the key, `KeyError` otherwise |
| Makers.MakerItem.constructor | maker.py:10-12 | an item belongs to its maker and starts with empty defaults |
| Makers.MakerItem.Setup | maker.py:14-19 | `setup` replaces the item's defaults |
| Makers.MakerItem.Call | maker.py:21-24 | the class is called with the layered keywords |
| Makers.MakeThenLookUp | maker.py:46-52 | two calls with one key return the same item, which indexing then finds |
| Makers.LayeredSetup | classes/save_szr.py:16-19 | `key(int)` called after the two `setup`s sees both layers under its own keywords |

## Left out

- **Weak references and `__del__`.** GC-driven removal of handles (classes/gd_module.py:33, 48-49, 98-107) is not modelled. An identity's handles are an explicit set that grows when a handle is made and is emptied by `absorb`.
- **gzip, base64 and AES.** These layers of `compress`/`decompress`, `encrypt_save_xml` and `decrypt_save_xml`, and the URL-safe base64 text serializers, are library calls. Only the XOR, the pad length, the pad removal and the first-byte dispatch are modelled.
- Decompressing.DecryptDispatch: only selects the XOR or AES path; the decryption behind each path is not modelled.
- **XML.** Parsing and printing through ElementTree are not modelled. The plist codec works on an abstract element tree.
- **Floating point.** Left out are `Vector2` (float) and its `__abs__`/`normalized`/`__truediv__`, float formatting, float text parsing, the HSV tuple and float fields.
  - Plist keeps an `r` element's text as an uninterpreted float value (`JFloat`).
  - `LockSerializer`'s modifier is only compared with zero.
  - `RotateDegreesSerializer` is modelled over integers.
- **Serializer classes that `serializing.py` imports but does not define.** These are `WrapKeys`, `WrapKeyInfo`, `MultiField`, `MultiKey`, `Mapping`, `List`, `Tuple`, `StrSplit`, `ToEnum`, `ToAttrs`, `SplitDict`, `DoNothing` and `SerializingFamily`. Where they appear, their serializers are parameters.
  - `make_keys`/`make_fields` and the per-object field tables are parameters.
  - The level-data serializer of `LevelSerializer` is a parameter.
  - `DictFieldsOptimized` fields that are not `FieldCommon` (the unoptimized fields analysed first) are not modelled, because every such field class lies outside `serializing.py`. Every modelled field is a `FieldCommon`.
- **The enums and the tables in `data/`.** Only the ids and members the modelled code uses are written out. `special_ids` is a parameter table.
- **Runtime introspection.** `args_to_kwargs`, `inspect.getfullargspec` and `map_default` are not modelled.
  - `Maker` items take keyword arguments only, and the class the item calls is not modelled.
  - The argument names of a function decorated by `ContextPool.decorate_func` are a parameter.
- **The `IgnoreDefaultMeta.__new__`/`__setattr__` hooks.** The merge they perform is modelled as a function over explicit field tables.
- **`SafeGet.C()`.** The active flag is a parameter of `DefaultField.get` (absent when no flag is entered). Default factories are opaque: a factory is named, and its result is a parameter.
- **Printing.** `check_llm_03` is modelled as returning what it would report. The unknown-class warning of the object serializer prints nothing here.
- **Scope entry in `LevelSerializer.analyze`.** Creating a fresh `GdModule` and entering it is not modelled. Which module is active, as `GdModule.C()` would answer, is the `active` parameter of the handle operations.
- **File entry points.** `LoadFromGMD`, `SaveToGMD`, `LoadFromDAT`, `SaveToDAT` and `LevelInfo.decompress` read files and decompress. They are not modelled.
- **`Vector2Abc.__hash__`.** It hashes through Python's tuple hash and is not modelled.
- **Dictionary order.** Python dictionaries keep insertion order. The models use `map` where order does not matter to the property, and an ordered list of pairs where it does: the settings record, `dict2pairs` and plist dictionaries.
- ParseInt (`Text.ParseInt`): Python's `int` also accepts decimal digits outside ASCII (`'٣'`) and whitespace outside ASCII (a no-break space) around the number. The model refuses both; it reads the ASCII whitespace `int` skips (0x09 to 0x0D and the space, not the separators 0x1C to 0x1F), a sign, and ASCII digits with single underscores between them.
- ToInt (`Values.ToInt`): reads strings through `Text.ParseInt`, so the non-ASCII text above is a `ValueError` here. Instances that define `__int__` or `__index__` are a `TypeError` here.
- ToStr (`Values.ToStr`): Python's `str` never fails, but the `repr` of tuples, dicts, instances and classes depends on module paths and memory addresses and is not modelled. The model gives `TypeError` for them. The modelled serializers apply `str` to integers and strings only.
- GdIdAnalyze (`ObjectCodecs.GdIdAnalyze`): reads its text through `Text.ParseInt`, so non-ASCII digits and whitespace that Python's `int` accepts are a `ValueError` here.
- HeadId (`GdObjectSzr.HeadId`): reads key `1` through `Text.ParseInt`, with the same non-ASCII gap.
- IntKeyAnalyze (`SaveSzr.IntKeyAnalyze`): reads its text through `Text.ParseInt`, with the same non-ASCII gap.
- IntKeyRoundTrip (`SaveSzr.IntKeyRoundTrip`): its "fails exactly on" half is about `Text.ParseInt`, so it has the same non-ASCII gap.
- NestedIdentity (`Recognizing.NestedIdentity`): a model value is never a recognizer. So the step where a plain `Nested` applies a recognizer returned by its inner recognizer to the data (recognizing.py:104-106) cannot happen here, and the lemma says nothing about it. A `Map` target that is a recognizer is modelled (`Then`).
- CellsOk (`Identity.GdModule.CellsOk`): a cell's container set is the one container of its category in the module, or empty. In the source `GdId.containers` is a set that can hold containers of several modules (classes/gd_module.py:113, 144-147), when a cell is bound in more than one module. Only one module is modelled at a time.
- Compile (`Serializing.Compile`): `Func` with `compile_data=True` is not modelled. In that mode the compiler is also given the sink (serializing.py:93-118). Every modelled `Func` compiler takes the value alone.
- Lookup (`Funcs.Lookup`): keys are compared by the model's structural equality. Python's equalities across types (`0 == False`, `1 == True`, `1 == 1.0`) are lost in `Key` and `Map` lookups and in dict inserts. A dict with both `1` and `True` as keys has two entries here and one in Python.
- InheritableFields (`GdObjectSzr.InheritableFields`): the source builds it over the very dict `gd_object_serializer.serializers` (classes/gd_object_szr.py:203), so a class made through it is at once known to the object serializer. The model copies the table as a map, so a later `Make` does not reach the object serializer's table.

## Findings

| source | as written | input that shows it | evidently intended | confidence | as-written member | corrected member |
|---|---|---|---|---|---|---|
| tools/vector2.py:82-84 | `__sub__` adds the components | `Vector2Int(0, 0) - Vector2Int(1, 0)` gives `(1, 0)` | componentwise difference, `(-1, 0)` | high, not executed | Vector2.SubAsWrittenCounterexample | Vector2.SubInverse |
| classes/gd_module.py:137-142 | `g.absorb(g)` repoints the handles and then clears the handle set it iterated | `g.absorb(g)` for any non-constant `g` with a handle | absorbing an identity into itself changes nothing | medium, not executed | Identity.SelfAbsorbDropsHandles | Identity.GdId.Absorb |
| classes/gd_module.py:179-183 | `set_value` unbinds the old value before the bijection check raises `DuplicationError` | values `{a: 10, b: 20}`, then `set_value(a, 20)`: raises, yet `a` has lost its binding and still lists the container | the failed call leaves the container unchanged | medium, not executed | Identity.SetValuePartialUpdate | Identity.GdIdContainer.SetValue |
| context/context_pool.py:83-84 | the `TypeError` for a name both positional and keyword is constructed but not raised | `decorate_func('a', a='x')` | the duplicate name is rejected | high, not executed | ContextPool.KeywordSilentlyWins | ContextPool.Mapping |
| serializing.py:238-240 | `compile` tests the entry's name against `from_key` (the raw keys) instead of `from_name` | field `x` read from raw key `a`: `compile({'x': v})` writes nothing | compile writes every field analyze read | high, not executed | Serializing.FromKeyCounterexample | SerializingRoundTrip.OptimizedRoundTrip |
| classes/save.py:122-125 | `while self.has(...): revision += 1` never ends when the level object itself is already stored | `s = Save([l]); s.add(l)` | adding a level that is already stored is a no-op | medium, not executed | Saves.AddAsWrittenNeverExits | Saves.Save.Add |
| ignore_default.py:37 | `if self.takes_self:` is true for the `Missed` sentinel, so a factory without `takes_self` is called with the instance | `DefaultField(factory=list).get(obj)` calls `list(obj)` | the factory is called without arguments unless `takes_self=True` | high, not executed | IgnoreDefaults.TakesSelfMissed | IgnoreDefaults.Produce |
