# DeepSea resource resolver, modelled in Dafny

de4dot's DeepSea `ResourceResolver` looks at the method an obfuscated
assembly hooks onto `AppDomain.ResourceResolve` and decides which resource
encryption scheme it uses:

- **V3** is recognised by the handler's local variable types.
- **V40** is recognised by the call window `ldarg.1; ldtoken; ldc.i4 len; ldstr; ldc.i4 magic; [tail.] call`.
- **V41** is recognised by a call to a second handler whose body reads a ciphertext field and derives a key from one of its arguments.

For each scheme it extracts:

- the ciphertext field, which holds the initial-value blob;
- the magic integer.

Later, `mergeResources` materialises the resource. It registers the decrypted data as a new embedded resource and drains the field in place: the blob becomes a single zero byte and the field's type becomes `System.Byte`.

The model has six modules:

- `Basics`: an option type for C# null, and the machine integer ranges. It also holds the 32-bit wrap-around `Wrap32`, the bitwise or `BitOr`, and the first-match search `FirstMatch`, which is the reference definition of every scanner.
- `Cil`: what the resolver sees of the Mono.Cecil object model and the `DotNetUtils` helpers.
  - Opcodes, and operands constrained to fit their opcode.
  - Field definitions with their blobs, and method references and definitions.
  - `isLdarg`, `isLdcI4`, `getLdcI4Value` and `getArgIndex`.
  - `isMethod`, and the `as FieldDefinition` / `as MethodDefinition` casts. Each cast succeeds exactly when the token is defined in the module's field or method table.
- `Scanners`: the early-return instruction searches. Each has three parts:
  - a window predicate for one position;
  - a specification function built on `FirstMatch`;
  - a method with the source's loop, proved equal to that function.
- `HandlerV41`: `checkHandlerV41`, which covers the choice between the retail and trial key-argument searches and both magic formulas.
- `DeepSeaResources`: the resolver's state.
  - A `ModuleDefinition` class stands for the Cecil module the resolver is given. It holds the field table, which `decryptResource` overwrites, and the list of added resources.
  - A `ResourceResolver` class holds `version`, `data30`, `data40` and `data41`. It also has `checkHandlerMethodDesktopInternal`, `initialize`, `mergeResources` and `decryptResource`.
- `Properties`: lemmas that relate several operations. They cover:
  - the priority order of the variants;
  - the V40 window as one declarative condition, and its length check;
  - prefix stability of the scanners;
  - the V41 magic expressed as instruction windows;
  - the version key's bitwise or;
  - worked V40, retail V41 and trial V41 handlers;
  - the drained field still qualifying as ciphertext.

## Model

| member | source | states |
|---|---|---|
| Scanners.RetailWindow | de4dot.code/deobfuscators/DeepSea/ResourceResolver.cs:150-162 | the position of the first `add; ldarg; sub; ldc.i4 0xFF` window, and None exactly when there is no such window |
| Scanners.RetailArgIndex | de4dot.code/deobfuscators/DeepSea/ResourceResolver.cs:148-167 | -1 exactly when no retail window exists; otherwise a non-negative value that is the `getArgIndex` of the ldarg in the first retail window |
| Scanners.GetMagicArgIndex41Retail | de4dot.code/deobfuscators/DeepSea/ResourceResolver.cs:148-167 | the source's loop, bounded by `i < Count - 3`, returns `RetailArgIndex` |
| Scanners.TrialWindow | de4dot.code/deobfuscators/DeepSea/ResourceResolver.cs:171-178 | the position of the first `ldarg; ldc.i4 (any); shr` window, and None exactly when there is none |
| Scanners.TrialArgIndex | de4dot.code/deobfuscators/DeepSea/ResourceResolver.cs:169-183 | -1 exactly when no trial window exists; otherwise the `getArgIndex` of the ldarg that opens the first trial window |
| Scanners.GetMagicArgIndex41Trial | de4dot.code/deobfuscators/DeepSea/ResourceResolver.cs:169-183 | the source's loop, bounded by `i < Count - 2`, returns `TrialArgIndex` |
| Scanners.LdtokenField | de4dot.code/deobfuscators/DeepSea/ResourceResolver.cs:185-196 | the operand of the first ldtoken whose operand is a module field with a non-null, non-empty blob; no earlier ldtoken qualifies; None exactly when no ldtoken qualifies |
| Scanners.GetLdtokenField | de4dot.code/deobfuscators/DeepSea/ResourceResolver.cs:185-196 | the source's `foreach` search returns `LdtokenField` |
| Scanners.GetResourceField | de4dot.code/deobfuscators/DeepSea/ResourceResolver.cs:274-284 | the second copy of the search also returns `LdtokenField`, so the two source functions compute the same thing |
| Scanners.HandlerArgs41 | de4dot.code/deobfuscators/DeepSea/ResourceResolver.cs:106-122 | the first call whose operand is a method definition of the module and whose arguments resolve, paired with those arguments; earlier calls that fail either test are skipped; None exactly when no call qualifies |
| Scanners.GetHandlerArgs41 | de4dot.code/deobfuscators/DeepSea/ResourceResolver.cs:106-122 | the source's loop returns `HandlerArgs41` |
| Scanners.TokenTarget | de4dot.code/deobfuscators/DeepSea/ResourceResolver.cs:226-242 | the V40 ldtoken operand resolves to a field with a non-empty blob in one of two ways, and in both directions: (1) a module field with a non-empty blob that is not a method resolves to itself, with no accessor and the field-handle call signature; (2) a `byte[]()` accessor method whose own first qualifying ldtoken is some field resolves to that field, with the accessor and the method-handle signature. Every resolved target arises in one of these two ways; any other operand rejects the position |
| Scanners.ProbeV40Tail | de4dot.code/deobfuscators/DeepSea/ResourceResolver.cs:244-268 | a match carries the resolved field and accessor, and the magic is the second ldc.i4's value; a match requires the first ldc.i4 to equal the blob's length and ldstr to follow it; `ProbeV40TailWindow` gives the full condition in both directions |
| Scanners.ProbeV40TailWindow | de4dot.code/deobfuscators/DeepSea/ResourceResolver.cs:244-268 | the rest of the window matches exactly when `V40TailAt` holds: length literal, ldstr, magic literal, then a `Call` to an Assembly-returning method with the target's signature, one position further when a `tail.` prefix precedes it |
| Scanners.ProbeV40 | de4dot.code/deobfuscators/DeepSea/ResourceResolver.cs:218-268 | a match at i starts with ldarg.1 and ldtoken, has its magic literal at i + 4, and names a field with a non-empty blob |
| Scanners.V40Window | de4dot.code/deobfuscators/DeepSea/ResourceResolver.cs:217-269 | the first position where the V40 window matches, and None exactly when it matches nowhere |
| Scanners.V40Match | de4dot.code/deobfuscators/DeepSea/ResourceResolver.cs:213-272 | `checkHandlerV40` yields data exactly when some position matches, and its field always has a non-empty blob |
| Scanners.CheckHandlerV40 | de4dot.code/deobfuscators/DeepSea/ResourceResolver.cs:213-272 | the source's loop returns `V40Match` |
| Scanners.CheckHandlerV40At | de4dot.code/deobfuscators/DeepSea/ResourceResolver.cs:218-268 | one iteration of the loop yields data exactly when the window matches at that position, and then yields that position's data |
| Scanners.ResolveLdtoken | de4dot.code/deobfuscators/DeepSea/ResourceResolver.cs:226-242 | the field-or-accessor step of the loop computes `TokenTarget` |
| Scanners.MatchV40Tail | de4dot.code/deobfuscators/DeepSea/ResourceResolver.cs:244-268 | the cursor-stepping rest of the loop body matches exactly when `ProbeV40Tail` does, with the same data |
| Scanners.V40MatchIsFirst | de4dot.code/deobfuscators/DeepSea/ResourceResolver.cs:266-268 | a matching position with no match before it is the one `checkHandlerV40` reports |
| Basics.Wrap32 | de4dot.code/deobfuscators/DeepSea/ResourceResolver.cs:144 | C#'s unchecked int result is congruent to the exact result modulo 2^32, and equal to it when that is in range |
| Basics.BitOrBits | de4dot.code/deobfuscators/DeepSea/ResourceResolver.cs:144 | `BitOr` is the bitwise or: bit n of the result is set exactly when bit n of either operand is |
| Basics.ShiftedBits | de4dot.code/deobfuscators/DeepSea/ResourceResolver.cs:144 | multiplying by 2^s is the left shift by s: bit n of the product is bit n - s of the operand, and unset below s |
| Basics.BitOr | de4dot.code/deobfuscators/DeepSea/ResourceResolver.cs:144 | the bitwise or of two non-negative ints is at least each operand and at most their sum |
| HandlerV41.TrialMagic | de4dot.code/deobfuscators/DeepSea/ResourceResolver.cs:142 | `val >> 3` is the floor of val / 8: `8*m <= val < 8*m + 8` |
| HandlerV41.VersionKey | de4dot.code/deobfuscators/DeepSea/ResourceResolver.cs:144 | the key is at least each of `Major << 3`, `Minor << 2` and `Revision`, at most their sum, and fits in a C# int |
| HandlerV41.VersionKeyBits | de4dot.code/deobfuscators/DeepSea/ResourceResolver.cs:144 | bit n of the key is set exactly when bit n - 3 of Major, bit n - 2 of Minor or bit n of Revision is set |
| HandlerV41.Magic41 | de4dot.code/deobfuscators/DeepSea/ResourceResolver.cs:141-144 | the trial magic is the floor of val / 8; the retail magic is congruent to the key minus val modulo 2^32 |
| HandlerV41.KeyArgIndex | de4dot.code/deobfuscators/DeepSea/ResourceResolver.cs:130-134 | the retail search's index when it finds a window, the trial search's otherwise; -1 exactly when neither kind of window exists |
| HandlerV41.RetailMagic | de4dot.code/deobfuscators/DeepSea/ResourceResolver.cs:144 | the result is congruent to version key minus val modulo 2^32: unchecked int subtraction |
| HandlerV41.V41Params | de4dot.code/deobfuscators/DeepSea/ResourceResolver.cs:124-146 | succeeds exactly when the handler has a qualifying ldtoken field and the chosen slot is in range and holds an int; the result carries that field and the called handler; isTrial holds exactly when the retail search gives -1; the magic is the trial formula on the trial slot or the retail formula on the retail slot |
| HandlerV41.V41ParamsFound | de4dot.code/deobfuscators/DeepSea/ResourceResolver.cs:139-145 | parameters assembled from the searches' answers and the int in the chosen slot are exactly `V41Params`'s answer |
| HandlerV41.GetMagicArgIndex41 | de4dot.code/deobfuscators/DeepSea/ResourceResolver.cs:130-134 | the trial search runs only when the retail search returns a negative index; isTrial is then true |
| HandlerV41.CheckHandlerV41 | de4dot.code/deobfuscators/DeepSea/ResourceResolver.cs:124-146 | the source's straight-line code returns `V41Params` |
| DeepSeaResources.Classify | de4dot.code/deobfuscators/DeepSea/ResourceResolver.cs:83-104 | a V40 or V41 classification names a field with a non-empty blob |
| DeepSeaResources.ClassifyHandler | de4dot.code/deobfuscators/DeepSea/ResourceResolver.cs:84-103 | running V3, then the V40 scan, then the call-site search and V41 extraction, each only when the previous step failed, yields `Classify` |
| DeepSeaResources.Drained | de4dot.code/deobfuscators/DeepSea/ResourceResolver.cs:331-332 | draining keeps the field's RVA |
| DeepSeaResources.ResourceResolver.constructor | de4dot.code/deobfuscators/DeepSea/ResourceResolver.cs:75-77 | a new resolver keeps the module it is given, and starts as the field initialisers at lines 28-31 say: version Unknown, no data, no handler |
| DeepSeaResources.ResourceResolver.GetDataMethod | de4dot.code/deobfuscators/DeepSea/ResourceResolver.cs:67-69 | the accessor recorded in V40's data when there is V40 data, and null when there is none |
| DeepSeaResources.ResourceResolver.Resource | de4dot.code/deobfuscators/DeepSea/ResourceResolver.cs:71-73 | the resource recorded in V3's data when there is V3 data, and null when there is none |
| DeepSeaResources.ResourceResolver.CheckHandlerMethodDesktopInternal | de4dot.code/deobfuscators/DeepSea/ResourceResolver.cs:83-104 | returns true exactly when some variant matches, and version becomes the first such variant (unchanged on false); data40 receives the V40 scan's result whenever V3 fails (null unless V40 matched); data41 changes only on a V41 match; data30 is untouched; after a V40 or V41 match the recorded field exists in the module; afterwards `GetDataMethod` is the V40 scan's accessor on a V40 match, null when V3 fails without V40, and unchanged on V3 |
| DeepSeaResources.ResourceResolver.Initialize | de4dot.code/deobfuscators/DeepSea/ResourceResolver.cs:286-300 | with a handler and version V3, data30 records the located resource (possibly null), which `Resource` then reports; in every other case nothing changes |
| DeepSeaResources.ResourceResolver.MergeResources | de4dot.code/deobfuscators/DeepSea/ResourceResolver.cs:302-323 | Unknown returns true with a null rsrc and changes nothing; V3 fails without a located resource and otherwise adds exactly one resource, named after it, and returns it; V40 and V41 return true, add one resource and drain their field |
| DeepSeaResources.ResourceResolver.DecryptResource | de4dot.code/deobfuscators/DeepSea/ResourceResolver.cs:325-334 | a null field returns false and changes nothing; otherwise it returns true, and exactly one resource is appended. That resource is named after the field's token and RVA and decrypted from the old blob with the magic; the field becomes a one-zero-byte blob of type Byte, and no other field changes |
| Properties.ClassifyPriority | de4dot.code/deobfuscators/DeepSea/ResourceResolver.cs:83-104 | V3 exactly when its locals fit; V40 exactly when V3 fails and a V40 window exists; V41 exactly when both fail and the first resolvable call yields V41 parameters; the recorded V40 data is the V40 scan's answer |
| DeepSeaResources.CheckHandlerV3 | de4dot.code/deobfuscators/DeepSea/ResourceResolver.cs:209-211 | a V3 handler has each of the nine type names among its locals; a handler that is not V3 lacks some one of them |
| Properties.HandlerLocalTypesV3Distinct | de4dot.code/deobfuscators/DeepSea/ResourceResolver.cs:198-208 | the V3 test names nine distinct local types |
| Properties.CheckHandlerV3Locals | de4dot.code/deobfuscators/DeepSea/ResourceResolver.cs:209-211 | the V3 test is set inclusion: adding, reordering or duplicating locals keeps a V3 handler V3 |
| Properties.CheckHandlerV3Missing | de4dot.code/deobfuscators/DeepSea/ResourceResolver.cs:198-211 | a handler lacking any one of the nine type names is not V3 |
| Properties.V40AtWindow | de4dot.code/deobfuscators/DeepSea/ResourceResolver.cs:218-268 | `checkHandlerV40`'s loop body matches at i exactly when the declarative window `V40WindowAt` is there: ldarg.1, an ldtoken whose operand `TokenTarget` resolves, then `V40TailAt` |
| Properties.V40AtData | de4dot.code/deobfuscators/DeepSea/ResourceResolver.cs:253-267 | a match at i reports the resolved field, its accessor and the value of the ldc.i4 at i + 4 |
| Properties.V40LengthMustMatch | de4dot.code/deobfuscators/DeepSea/ResourceResolver.cs:244-248 | replacing the length literal of a matching V40 window with any other value rejects that position |
| Properties.V40NoOverrunBeforeRet | de4dot.code/deobfuscators/DeepSea/ResourceResolver.cs:217-260 | in a body ending with ret, the V40 cursor never reads past the end |
| Properties.V40TailNoOverrunBeforeRet | de4dot.code/deobfuscators/DeepSea/ResourceResolver.cs:244-260 | the same for the part of the window after the ldtoken |
| Properties.V40FieldExample | de4dot.code/deobfuscators/DeepSea/ResourceResolver.cs:213-272 | a concrete direct-field handler with a tail. prefix yields its field, no accessor and magic 0x1234 |
| Properties.RetailAtAppend | de4dot.code/deobfuscators/DeepSea/ResourceResolver.cs:150-162 | whether a retail window lies at a position inside the list does not depend on what is appended |
| Properties.RetailArgIndexAppend | de4dot.code/deobfuscators/DeepSea/ResourceResolver.cs:148-167 | instructions appended after the first retail window do not change the retail search's answer |
| Properties.FieldTokenAtAppend | de4dot.code/deobfuscators/DeepSea/ResourceResolver.cs:187-191 | whether a position inside the list holds a qualifying ldtoken does not depend on what is appended |
| Properties.LdtokenFieldAt | de4dot.code/deobfuscators/DeepSea/ResourceResolver.cs:185-196 | a qualifying ldtoken with none before it is the one whose field is reported |
| Properties.LdtokenFieldAppend | de4dot.code/deobfuscators/DeepSea/ResourceResolver.cs:185-196 | instructions appended after the first qualifying ldtoken do not change the field found |
| Properties.LdtokenFieldSameCandidates | de4dot.code/deobfuscators/DeepSea/ResourceResolver.cs:189-190 | field tables that agree on which tokens have non-empty blobs give every body the same ldtoken field |
| Properties.DrainedFieldStillCandidate | de4dot.code/deobfuscators/DeepSea/ResourceResolver.cs:331 | a drained ciphertext field still has a non-empty blob, and every ldtoken search finds what it found before |
| Properties.V41RetailMagicFromWindow | de4dot.code/deobfuscators/DeepSea/ResourceResolver.cs:130-144 | successful retail parameters use the retail formula on the int argument named by the ldarg of the first retail window |
| Properties.V41TrialMagicFromWindow | de4dot.code/deobfuscators/DeepSea/ResourceResolver.cs:130-142 | successful trial parameters occur only when the handler has no retail window, and use the trial formula on the int argument named by the ldarg that opens the first trial window |
| Properties.RetailWindowOf | de4dot.code/deobfuscators/DeepSea/ResourceResolver.cs:148-167 | a successful retail search has a first window whose ldarg it reports |
| Properties.TrialWindowOf | de4dot.code/deobfuscators/DeepSea/ResourceResolver.cs:169-183 | a successful trial search has a first window whose ldarg it reports |
| Properties.VersionKeyIsBitwiseOr | de4dot.code/deobfuscators/DeepSea/ResourceResolver.cs:144 | for version 1.2.0.3 the key is 8 \| 8 \| 3 = 11, not the sum 19 |
| Properties.RetailMagicWraps | de4dot.code/deobfuscators/DeepSea/ResourceResolver.cs:144 | 11 minus int.MinValue wraps to int.MinValue + 11 |
| Properties.TrialMagicRoundsDown | de4dot.code/deobfuscators/DeepSea/ResourceResolver.cs:142 | -9 >> 3 is -2, -1 >> 3 is -1 and 15 >> 3 is 1 |
| Properties.RetailArgIndexAt | de4dot.code/deobfuscators/DeepSea/ResourceResolver.cs:164 | a retail window with none before it is the one whose ldarg is reported |
| Properties.TrialArgIndexAt | de4dot.code/deobfuscators/DeepSea/ResourceResolver.cs:180 | a trial window with none before it is the one whose ldarg is reported |
| Properties.BodyFieldScan | de4dot.code/deobfuscators/DeepSea/ResourceResolver.cs:185-196 | a body that opens with ldtoken of a ciphertext field yields that field |
| Properties.RetailBodyWindow | de4dot.code/deobfuscators/DeepSea/ResourceResolver.cs:148-167 | the concrete retail body's window reports argument 2 |
| Properties.TrialBodyWindow | de4dot.code/deobfuscators/DeepSea/ResourceResolver.cs:148-183 | the concrete trial body has no retail window, and its trial window reports argument 1 |
| Properties.RetailV41Example | de4dot.code/deobfuscators/DeepSea/ResourceResolver.cs:124-146 | argument 2 holds 100 and the version is 1.2.0.3: retail parameters with magic 11 - 100 = -89 |
| Properties.TrialV41Example | de4dot.code/deobfuscators/DeepSea/ResourceResolver.cs:124-146 | a body without a retail window, with argument 1 holding -9: trial parameters with magic -2 |

## Left out

- Mono.Cecil, the `DotNetUtils` helpers and `LocalTypes`: modelled as datatypes and predicates (`Cil`), not as the library code.
  - The operand of ldc.i4, ldc.i4.s, ldarg and ldarg.s always fits its opcode (`Cil.Instr`). So two cases cannot arise: `getLdcI4Value` throwing, and `getArgIndex` returning -1 for a missing parameter.
  - `LocalTypes.all` is modelled as set inclusion of full type names.
- `checkResolverInitMethodInternal` (`DotNetUtils.callsMethod` on a signature string): not modelled, because it only delegates to a foreign helper.
- `DsUtils.getArgValues` is not part of this model. It is the function-valued parameter `ArgResolver`, and an argument value is either an int or something else.
- `simpleDeobfuscator.deobfuscate` is taken to leave the body as it is. `decryptStrings` and `DeobUtils.getEmbeddedResourceFromCodeStrings` are folded into the `located` parameter of `Initialize`. Their logic is not shown.
- `decryptResourceV3`, `decryptResourceV4` and `DeobUtils.decryptAndAddResources` are not part of this model. An added resource is recorded as its name plus what it is decrypted from: the V3 resource, or the old blob and the magic. The decryption is taken to happen at the call, before the field is drained.
- The `string.Format` name `Embedded data field {token:X8} RVA {rva:X8}` is modelled as the pair (token, RVA), to avoid hex formatting.
- `Log.w` in `initialize` is left out, because it only logs.
- `resolveHandler` is assigned by the resolver base class, which is not part of this model. Here it is a plain field that callers set.
- `module.Assembly.Name.Version` is a constant of the module. Its parts are 16-bit, as in metadata, so the shifts cannot overflow.
- Scanners.ProbeV40: in `checkHandlerV40`, the cursor can read past the end of the instruction list when a partial window sits at its end. C# would throw there; the model counts such a position as no match (`Probe.Overrun`). `Properties.V40NoOverrunBeforeRet` shows that this cannot happen in a body that ends with ret.
- DeepSeaResources.ResourceResolver.MergeResources: requires `Materializable()`, i.e. the data of the recorded version is present and its field belongs to the module. In the source, these are null dereferences. `CheckHandlerMethodDesktopInternal` and `Initialize` establish the condition for the state they produce.
- A second `mergeResources` does not recognise an already drained field. The code has no guard, and `Properties.DrainedFieldStillCandidate` shows that the drained one-byte blob still qualifies. No idempotence is claimed.
