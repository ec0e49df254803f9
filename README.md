# Textractor Unicode-normalisation extension, modelled in Dafny

The extension sits inside the Textractor text hooker. For every sentence the
host calls the exported `OnNewSentence` with two things: a NUL-terminated
UTF-16 buffer, and a pointer to an array of `(name, i64)` properties that
describe the sentence. The extension looks up the "text number" property and
leaves console text alone. Any other text it rewrites into Unicode
Normalization Form KC. It then tells the host where the result lives: in the
same buffer, overwritten in place, or in a block enlarged with
`HeapReAlloc` on the process heap.

The project has four modules:

- `Common` (`common.dfy`): `Option`, and `Outcome` (a value, or a panic).
- `Textractor` (`textractor.dfy`, modelling `src/textractor.rs`):
  - the property names and their literals;
  - UTF-8 validation of entry names;
  - the property lookup `GetPropertyValue`, a loop, with its specification
    `Scan`/`PropertyValue` and the lemmas about it;
  - the classifiers for "text number" and "current select";
  - the two getters, which panic when a property is missing.
- `Extension` (`lib.dfy`, modelling `src/lib.rs`):
  - `ProcessSentence`, on an owned `U16String` object;
  - the process heap as a class whose `HeapReAlloc` records each request and
    fails exactly when the heap is out of memory;
  - `OnNewSentence` on an `array<u16>`, with the measuring of the text, the
    copy helper that writes the terminator, and what the host reads back
    (`CString`).
- `Scenarios` (`scenarios.dfy`): four clients of `OnNewSentence` that use
  only its contract. They cover growth ("ﬁ" to "fi"), shrinking ("e" plus a
  combining acute to "é"), allocator failure, and console text.

Modelling choices:

- A panic is the `Panicked` outcome. An `extern "C"` entry point aborts the
  process on a panic, so a panic never leaves a partial effect.
- In the `Textractor` and `Extension` modules, `requires` clauses exclude
  only what would be undefined behaviour in the source: dereferencing a null
  name pointer, reading past the info array, and reading a sentence buffer
  that has no terminator.
- The normaliser, meaning the lossy UTF-16 decoding, NFKC and re-encoding of
  `src/lib.rs:20-21`, is a function-typed parameter `normalize`. The
  `Textractor` and `Extension` modules assume nothing about it. Each
  `Scenarios` method fixes the one normaliser output its example depends on
  (for instance that "ﬁ" normalises to "fi").
- Integers: `i64` is the newtype `int64`, UTF-16 code units are `u16`, name
  bytes are `byte`.

### The lookup recognises no sentinel

An entry with a null name does not stop the property walk, and on a non-null
array the walk never reports a property as absent:

- The loop guard at `src/textractor.rs:109` tests the entry pointer, not the
  entry's name.
- `pointer.add(1)` (line 134) never yields null.
- So on a non-null array the walk leaves the loop only through a match, or
  through a panic on a name that is not UTF-8.
- A null-name entry would be passed to `CStr::from_ptr`, which is undefined
  behaviour.

The model follows the code:

- `GetPropertyValue` keeps the pointer as `cursor: Option<nat>`, and
  advancing it never produces `None`.
- Its precondition `WalkDefined` asks that a match or an invalid name comes
  before any null name and before the end of the array.
- It returns "absent" (`Done(None)`) exactly when the array pointer itself is
  null.
- `WalkEndsAtMatchOrInvalid` proves there is no other way out of the walk.
- `NullNameLeavesWalkUndefined` proves that reaching a null name, or the
  end of the array, first leaves the walk undefined.

## Model

| member | source | states |
|---|---|---|
| `Textractor.AsStr` | src/textractor.rs:35-40 | each property name is a non-empty ASCII literal |
| `Textractor.PropertyNamesDistinct` | src/textractor.rs:35-40 | the two property literals, and their bytes, are equal only for the same property |
| `Textractor.NameBytesEncodeName` | src/textractor.rs:129 | the bytes an entry name must hold to match are the UTF-8 encoding of the literal, and they are valid UTF-8 |
| `Textractor.IsUtf8` | src/textractor.rs:117 | well-formed UTF-8: no overlong forms, no surrogates, nothing above U+10FFFF; such a string holds none of the bytes C0, C1, F5..FF |
| `Textractor.AsciiIsUtf8` | src/textractor.rs:117 | every ASCII byte string passes the UTF-8 check of `to_str` |
| `Textractor.GetPropertyValue` | src/textractor.rs:106-138 | the loop returns what the walk specification `PropertyValue` gives; it returns "absent" if and only if the array pointer is null |
| `Textractor.ScanFindsFirstMatch` | src/textractor.rs:109-131 | if entry k is the first entry with the requested name and every earlier name is valid UTF-8, the walk is defined and yields entry k's value |
| `Textractor.ScanPanicsOnInvalidName` | src/textractor.rs:115-123 | a name that is not UTF-8, examined before any match, makes the walk panic |
| `Textractor.WalkEndsAtMatchOrInvalid` | src/textractor.rs:109-134 | a defined walk ends at a first match or at a first invalid name; nothing else, such as a null-name sentinel, ends it |
| `Textractor.NullNameLeavesWalkUndefined` | src/textractor.rs:109-134 | a null name, or the end of the array, reached before any match or invalid name makes the walk undefined: there is no "absent" sentinel |
| `Textractor.ScanIgnoresLaterEntries` | src/textractor.rs:109-131 | appending entries after the point where the walk stops changes neither its definedness nor its result |
| `Textractor.ScanIgnoresOtherName` | src/textractor.rs:129-131 | changing the value of an entry with a valid name other than the requested one leaves the walk's result unchanged |
| `Textractor.LookupIgnoresOtherProperty` | src/textractor.rs:35-40 | the value stored under one property name never affects the lookup of the other |
| `Textractor.ClassifyCurrentSelect` | src/textractor.rs:82-85 | 0 is `NotUserSelectedTextThread`; any other value v is `UserSelectedTextThread(v)` |
| `Textractor.ClassifyTextNumber` | src/textractor.rs:99-103 | 0 is `Console`, 1 is `Clipboard`; any other value v is `TextThread(v)` |
| `Textractor.ClassifiersInjective` | src/textractor.rs:82-103 | neither classifier maps two raw values to the same result, so the raw value is carried unchanged |
| `Textractor.GetTextNumber` | src/textractor.rs:88-104 | returns the classified "text number" value; a missing property (null array) or an invalid name panics, with no default |
| `Textractor.GetCurrentSelect` | src/textractor.rs:71-86 | returns the classified "current select" value; a missing property (null array) or an invalid name panics, with no default |
| `Textractor.GetterOfFirstMatch` | src/textractor.rs:71-104 | on a non-null array, each getter returns the classification of the first entry named after its property |
| `Textractor.GetterPanicsOnInvalid` | src/textractor.rs:71-104 | on a non-null array, a name that is not UTF-8 examined before any match makes each getter panic |
| `Extension.CStringOfTerminated` | src/lib.rs:56-64 | content without 0 followed by a terminator reads back as exactly that content, whatever follows |
| `Extension.ReadCString` | src/lib.rs:31-32 | the length is the number of units before the first 0; the copy is those units and holds no 0 |
| `Extension.WriteTerminated` | src/lib.rs:55-65 | writes the content at `0..len` and 0 at `len`; units past `len` are untouched, and when the content holds no 0 the block reads back as the content |
| `Extension.ProcessSentence` | src/lib.rs:14-24 | console text: returns false, text unchanged; any other text: returns true, text replaced by its normalised form; a missing text number panics and changes nothing |
| `Extension.ProcessHeap.HeapReAlloc` | src/lib.rs:41-48 | logs the request; returns null exactly when out of memory, otherwise a fresh block of at least the requested bytes that starts with the old units |
| `Extension.OnNewSentence` | src/lib.rs:27-70 | panic or console text: the block is untouched and no request is made. Growth: exactly one request of `(len+1)*2` bytes for this block; on failure the original block comes back untouched; on success the block the modelled allocator returns (a fresh one in this model) holds the text and a terminator. Otherwise: the original block, rewritten at `0..len` plus a terminator inside the old text's extent, and untouched beyond it |
| `Scenarios.InfoWithTextNumber` | src/textractor.rs:88-104 | a single-entry info array is a defined lookup, and it classifies its value |
| `Scenarios.GrowthScenario` | src/lib.rs:37-59 | a one-unit ligature that normalises to two units gets the block returned by the modelled allocator (a fresh one, so not the original), which reads "fi" |
| `Scenarios.ShrinkScenario` | src/lib.rs:60-65 | two units that normalise to one: the same block, which reads back as the single unit |
| `Scenarios.AllocatorFailureScenario` | src/lib.rs:50-51 | a refused growth returns the original block with the original text |
| `Scenarios.ConsoleScenario` | src/lib.rs:15-18 | console text comes back in the same block, unchanged, whatever the normaliser |

## Left out

- NFKC itself (Unicode Standard Annex #15, via the `unicode_normalization` crate), and lossy UTF-16 decoding and re-encoding. They are one opaque `normalize` parameter. Idempotence and length behaviour are properties of those libraries and are not stated.
- The Win32 heap. `HeapReAlloc`/`GetProcessHeap` are a `ProcessHeap` object whose out-of-memory flag stands for whatever makes the real allocator refuse. Allocator identity is represented only by the logged `(block, bytes)` request.
- `HEAP_GENERATE_EXCEPTIONS`: on Windows this flag raises an exception instead of returning null. That is operating-system behaviour; the model keeps the code's null check.
- `Extension.ProcessHeap.HeapReAlloc`: always returns a fresh block, so the claims of `Extension.OnNewSentence` and `Scenarios.GrowthScenario` that the grown block differs from the original hold for this allocator only. A real in-place resize that returns the same pointer is not distinguished, and the released old block stays readable in the model.
- Raw FFI mechanics. `CStr::from_ptr` is the name's bytes before its NUL, the subset type `CStrBytes`, which holds no 0. `#[no_mangle]`, `extern "C"`, `#[repr(C)]` layout and pointer arithmetic become sequences, arrays and indices.
- A null sentence pointer. The host never passes one, and the code does not check for it, so the buffer is a non-null array.
- Panic messages (src/textractor.rs:75-78, 118-122): only the fact of panicking is modelled.
- Re-entrancy and threads: the code keeps no shared state.
- `SentenceInfo::new` (src/textractor.rs:67-69) is the `SentenceInfo` constructor.
