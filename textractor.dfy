/** The property store and the classifiers of src/textractor.rs.

    The host hands the extension a pointer to an array of `(name, value)`
    entries. Here the array is a sequence of entries (or `None` for a null
    pointer) and an entry name is the byte string before its NUL terminator
    (or `None` for a null name pointer). */
module Textractor {
  import opened Common

  newtype byte = x: int | 0 <= x < 0x100
  newtype int64 = x: int | -0x8000_0000_0000_0000 <= x < 0x8000_0000_0000_0000

  // ---------------------------------------------------------------------
  // Property names
  // ---------------------------------------------------------------------

  datatype PropertyName = CurrentSelect | TextNumber

  /** The literal the host uses for each property; both are plain ASCII. */
  function AsStr(p: PropertyName): (s: string)
    ensures |s| > 0
    ensures forall i :: 0 <= i < |s| ==> s[i] as int < 0x80
  {
    match p
    case CurrentSelect => "current select"
    case TextNumber => "text number"
  }

  /** The two names differ, so a lookup of one never stops at the other. */
  lemma PropertyNamesDistinct(p: PropertyName, q: PropertyName)
    ensures AsStr(p) == AsStr(q) <==> p == q
    ensures NameBytes(p) == NameBytes(q) <==> p == q
  {
    if p != q {
      assert AsStr(p)[0] != AsStr(q)[0];
      assert NameBytes(p)[0] != NameBytes(q)[0];
    }
  }

  /** The UTF-8 encoding of an ASCII string: one byte per character. */
  function AsciiBytes(s: string): (b: seq<byte>)
    requires forall i :: 0 <= i < |s| ==> s[i] as int < 0x80
    ensures |b| == |s|
    ensures forall i :: 0 <= i < |s| ==> b[i] as int == s[i] as int
  {
    if s == [] then [] else [s[0] as int as byte] + AsciiBytes(s[1..])
  }

  /** The bytes of the literal `AsStr(p)`: what an entry name must hold to
      compare equal to it. */
  function NameBytes(p: PropertyName): (b: seq<byte>)
    ensures |b| == |AsStr(p)|
  {
    match p
    case CurrentSelect => [0x63, 0x75, 0x72, 0x72, 0x65, 0x6E, 0x74, 0x20, 0x73, 0x65, 0x6C, 0x65, 0x63, 0x74]
    case TextNumber => [0x74, 0x65, 0x78, 0x74, 0x20, 0x6E, 0x75, 0x6D, 0x62, 0x65, 0x72]
  }

  /** `NameBytes` is the UTF-8 encoding of `AsStr`, and it is valid UTF-8,
      so an entry holding exactly these bytes passes `to_str` and matches. */
  lemma NameBytesEncodeName(p: PropertyName)
    ensures NameBytes(p) == AsciiBytes(AsStr(p))
    ensures IsUtf8(NameBytes(p))
  {
    AsciiIsUtf8(NameBytes(p));
  }

  // ---------------------------------------------------------------------
  // UTF-8 validation (the check `CStr::to_str` performs)
  // ---------------------------------------------------------------------

  predicate IsContinuation(b: byte) {
    0x80 <= b <= 0xBF
  }

  /** Well-formed UTF-8 as in table 3-7 of the Unicode Standard, chapter 3:
      no overlong forms, no surrogates, nothing above U+10FFFF. In
      particular a well-formed string holds none of the bytes C0, C1 and
      F5..FF, which occur in no encoding. */
  predicate IsUtf8(s: seq<byte>)
    ensures IsUtf8(s) ==> forall i :: 0 <= i < |s| ==> s[i] != 0xC0 && s[i] != 0xC1 && s[i] < 0xF5
    decreases |s|
  {
    if |s| == 0 then true
    else if s[0] <= 0x7F then IsUtf8(s[1..])
    else if 0xC2 <= s[0] <= 0xDF then
      |s| >= 2 && IsContinuation(s[1]) && IsUtf8(s[2..])
    else if s[0] == 0xE0 then
      |s| >= 3 && 0xA0 <= s[1] <= 0xBF && IsContinuation(s[2]) && IsUtf8(s[3..])
    else if (0xE1 <= s[0] <= 0xEC) || (0xEE <= s[0] <= 0xEF) then
      |s| >= 3 && IsContinuation(s[1]) && IsContinuation(s[2]) && IsUtf8(s[3..])
    else if s[0] == 0xED then
      |s| >= 3 && 0x80 <= s[1] <= 0x9F && IsContinuation(s[2]) && IsUtf8(s[3..])
    else if s[0] == 0xF0 then
      |s| >= 4 && 0x90 <= s[1] <= 0xBF && IsContinuation(s[2]) && IsContinuation(s[3])
      && IsUtf8(s[4..])
    else if 0xF1 <= s[0] <= 0xF3 then
      |s| >= 4 && IsContinuation(s[1]) && IsContinuation(s[2]) && IsContinuation(s[3])
      && IsUtf8(s[4..])
    else if s[0] == 0xF4 then
      |s| >= 4 && 0x80 <= s[1] <= 0x8F && IsContinuation(s[2]) && IsContinuation(s[3])
      && IsUtf8(s[4..])
    else false
  }

  lemma {:induction false} AsciiIsUtf8(s: seq<byte>)
    requires forall i :: 0 <= i < |s| ==> s[i] <= 0x7F
    ensures IsUtf8(s)
  {
    if |s| > 0 {
      AsciiIsUtf8(s[1..]);
    }
  }

  // ---------------------------------------------------------------------
  // The info array and the property lookup
  // ---------------------------------------------------------------------

  /** What `CStr::from_ptr` reads: the bytes before the terminator, so never a 0. */
  type CStrBytes = s: seq<byte> | 0 !in s

  /** `InfoForExtension`: a name (`None` for a null pointer) and a value. */
  datatype Entry = Entry(name: Option<CStrBytes>, value: int64)

  /** Wraps the host's info array; `None` is a null array pointer. */
  datatype SentenceInfo = SentenceInfo(infoArray: Option<seq<Entry>>)

  /** The walk for `target` over `entries` stays defined: every entry it
      examines lies inside the array and has a name, and it reaches an entry
      whose name is either not UTF-8 (a panic) or equal to `target` (a
      match). The walk recognises no sentinel, so a null name on the way or
      the end of the array would be undefined behaviour. */
  predicate WalkDefined(entries: seq<Entry>, target: seq<byte>)
    decreases |entries|
  {
    && |entries| > 0
    && entries[0].name.Some?
    && (|| !IsUtf8(entries[0].name.value)
        || entries[0].name.value == target
        || WalkDefined(entries[1..], target))
  }

  /** What the walk yields: the value of the first entry named `target`, or
      a panic at an earlier entry whose name is not UTF-8. */
  function Scan(entries: seq<Entry>, target: seq<byte>): Outcome<int64>
    requires WalkDefined(entries, target)
    decreases |entries|
  {
    var name := entries[0].name.value;
    if !IsUtf8(name) then Panicked
    else if name == target then Done(entries[0].value)
    else Scan(entries[1..], target)
  }

  predicate LookupDefined(info: SentenceInfo, p: PropertyName) {
    info.infoArray.Some? ==> WalkDefined(info.infoArray.value, NameBytes(p))
  }

  /** The specification of `get_property_value`. */
  function PropertyValue(info: SentenceInfo, p: PropertyName): Outcome<Option<int64>>
    requires LookupDefined(info, p)
  {
    match info.infoArray
    case None => Done(None)
    case Some(entries) =>
      match Scan(entries, NameBytes(p))
      case Done(v) => Done(Some(v))
      case Panicked => Panicked
  }

  /** `k` is the first entry named `target`, and every entry before it has a
      valid name. */
  predicate FirstMatchAt(entries: seq<Entry>, target: seq<byte>, k: nat) {
    && k < |entries|
    && entries[k].name.Some? && entries[k].name.value == target
    && IsUtf8(target)
    && forall j :: 0 <= j < k ==>
         entries[j].name.Some? && IsUtf8(entries[j].name.value) && entries[j].name.value != target
  }

  /** `k` is the first entry whose name is not UTF-8, and no entry before it
      is named `target`. */
  predicate FirstInvalidAt(entries: seq<Entry>, target: seq<byte>, k: nat) {
    && k < |entries|
    && entries[k].name.Some?
    && !IsUtf8(entries[k].name.value)
    && forall j :: 0 <= j < k ==>
         entries[j].name.Some? && IsUtf8(entries[j].name.value) && entries[j].name.value != target
  }

  /** A first match at `k` makes the walk defined and yields entry `k`'s value. */
  lemma {:induction false} ScanFindsFirstMatch(entries: seq<Entry>, target: seq<byte>, k: nat)
    requires FirstMatchAt(entries, target, k)
    ensures WalkDefined(entries, target)
    ensures Scan(entries, target) == Done(entries[k].value)
    decreases k
  {
    if k > 0 {
      var rest := entries[1..];
      assert FirstMatchAt(rest, target, k - 1) by {
        forall j | 0 <= j < k - 1
          ensures rest[j].name.Some? && IsUtf8(rest[j].name.value) && rest[j].name.value != target
        {
          assert rest[j] == entries[j + 1];
        }
      }
      ScanFindsFirstMatch(rest, target, k - 1);
    }
  }

  /** An invalid name before any match makes the walk defined and panic. */
  lemma {:induction false} ScanPanicsOnInvalidName(entries: seq<Entry>, target: seq<byte>, k: nat)
    requires FirstInvalidAt(entries, target, k)
    ensures WalkDefined(entries, target)
    ensures Scan(entries, target) == Panicked
    decreases k
  {
    if k > 0 {
      var rest := entries[1..];
      assert FirstInvalidAt(rest, target, k - 1) by {
        forall j | 0 <= j < k - 1
          ensures rest[j].name.Some? && IsUtf8(rest[j].name.value) && rest[j].name.value != target
        {
          assert rest[j] == entries[j + 1];
        }
      }
      ScanPanicsOnInvalidName(rest, target, k - 1);
    }
  }

  /** A defined walk ends at a first match or at a first invalid name; there
      is no third way out (in particular no "absent" result). */
  lemma {:induction false} WalkEndsAtMatchOrInvalid(entries: seq<Entry>, target: seq<byte>)
    requires WalkDefined(entries, target)
    ensures exists k: nat :: FirstMatchAt(entries, target, k) || FirstInvalidAt(entries, target, k)
    decreases |entries|
  {
    var name := entries[0].name.value;
    if !IsUtf8(name) {
      assert FirstInvalidAt(entries, target, 0);
    } else if name == target {
      assert FirstMatchAt(entries, target, 0);
    } else {
      var rest := entries[1..];
      WalkEndsAtMatchOrInvalid(rest, target);
      var k: nat :| FirstMatchAt(rest, target, k) || FirstInvalidAt(rest, target, k);
      forall j | 0 <= j < k + 1
        ensures entries[j].name.Some? && IsUtf8(entries[j].name.value) && entries[j].name.value != target
      {
        if j > 0 { assert entries[j] == rest[j - 1]; }
      }
      assert FirstMatchAt(entries, target, k + 1) || FirstInvalidAt(entries, target, k + 1);
    }
  }

  /** The walk treats a null name as no sentinel: reaching one, or the end
      of the array, before any match or invalid name leaves the walk
      undefined rather than reporting the property absent. */
  lemma {:induction false} NullNameLeavesWalkUndefined(entries: seq<Entry>, target: seq<byte>, k: nat)
    requires k <= |entries|
    requires k == |entries| || entries[k].name.None?
    requires forall j :: 0 <= j < k ==>
      entries[j].name.Some? && IsUtf8(entries[j].name.value) && entries[j].name.value != target
    ensures !WalkDefined(entries, target)
    decreases k
  {
    if k > 0 {
      var rest := entries[1..];
      forall j | 0 <= j < k - 1
        ensures rest[j].name.Some? && IsUtf8(rest[j].name.value) && rest[j].name.value != target
      {
        assert rest[j] == entries[j + 1];
      }
      NullNameLeavesWalkUndefined(rest, target, k - 1);
    }
  }

  /** Entries after the point where the walk stops do not affect it. */
  lemma {:induction false} ScanIgnoresLaterEntries(entries: seq<Entry>, later: seq<Entry>, target: seq<byte>)
    requires WalkDefined(entries, target)
    ensures WalkDefined(entries + later, target)
    ensures Scan(entries + later, target) == Scan(entries, target)
    decreases |entries|
  {
    var all := entries + later;
    assert all[0] == entries[0];
    var name := entries[0].name.value;
    if IsUtf8(name) && name != target {
      assert all[1..] == entries[1..] + later;
      ScanIgnoresLaterEntries(entries[1..], later, target);
    }
  }

  /** Changing the value of an entry whose name is valid and differs from
      `target` does not change the walk for `target`. */
  lemma {:induction false} ScanIgnoresOtherName(entries: seq<Entry>, target: seq<byte>, k: nat, v: int64)
    requires k < |entries| && entries[k].name.Some?
    requires IsUtf8(entries[k].name.value) && entries[k].name.value != target
    requires WalkDefined(entries, target)
    ensures WalkDefined(entries[k := entries[k].(value := v)], target)
    ensures Scan(entries[k := entries[k].(value := v)], target) == Scan(entries, target)
    decreases |entries|
  {
    var changed := entries[k := entries[k].(value := v)];
    assert changed[0].name == entries[0].name;
    var name := entries[0].name.value;
    if IsUtf8(name) && name != target {
      if k == 0 {
        assert changed[1..] == entries[1..];
      } else {
        assert changed[0] == entries[0];
        assert changed[1..] == entries[1..][k - 1 := entries[k].(value := v)];
        ScanIgnoresOtherName(entries[1..], target, k - 1, v);
      }
    } else {
      assert changed[0] == entries[0];
    }
  }

  /** The "current select" and "text number" lookups are independent: the
      value of an entry named after one property never affects the other. */
  lemma LookupIgnoresOtherProperty(entries: seq<Entry>, p: PropertyName, q: PropertyName, k: nat, v: int64)
    requires p != q
    requires k < |entries| && entries[k].name.Some? && entries[k].name.value == NameBytes(q)
    requires WalkDefined(entries, NameBytes(p))
    ensures LookupDefined(SentenceInfo(Some(entries[k := entries[k].(value := v)])), p)
    ensures PropertyValue(SentenceInfo(Some(entries[k := entries[k].(value := v)])), p)
         == PropertyValue(SentenceInfo(Some(entries)), p)
  {
    PropertyNamesDistinct(p, q);
    NameBytesEncodeName(q);
    ScanIgnoresOtherName(entries, NameBytes(p), k, v);
  }

  /** `get_property_value`: walk the array from its head and return the value
      of the first entry named `p`. The cursor plays the part of the entry
      pointer, `None` being null; advancing it never makes it `None`. */
  method GetPropertyValue(info: SentenceInfo, p: PropertyName) returns (r: Outcome<Option<int64>>)
    requires LookupDefined(info, p)
    ensures r == PropertyValue(info, p)
    ensures info.infoArray.None? <==> r == Done(None)
  {
    var target := NameBytes(p);
    var cursor: Option<nat> := if info.infoArray.None? then None else Some(0);
    while cursor.Some?
      invariant cursor.None? ==> info.infoArray.None?
      invariant cursor.Some? ==>
        && info.infoArray.Some?
        && cursor.value < |info.infoArray.value|
        && WalkDefined(info.infoArray.value[cursor.value..], target)
        && Scan(info.infoArray.value[cursor.value..], target) == Scan(info.infoArray.value, target)
      decreases if cursor.Some? && info.infoArray.Some? then |info.infoArray.value| - cursor.value else 0
    {
      var entries := info.infoArray.value;
      var here := entries[cursor.value..];
      var name := entries[cursor.value].name.value;
      if !IsUtf8(name) {
        return Panicked;
      }
      var value := entries[cursor.value].value;
      if name == target {
        return Done(Some(value));
      }
      assert here[1..] == entries[cursor.value + 1..];
      cursor := Some(cursor.value + 1);
    }
    return Done(None);
  }

  // ---------------------------------------------------------------------
  // Classification
  // ---------------------------------------------------------------------

  datatype CurrentSelect = NotUserSelectedTextThread | UserSelectedTextThread(thread: int64)

  datatype TextNumber = Console | Clipboard | TextThread(thread: int64)

  /** "current select" is 0 unless the sentence is in the text thread the
      user selected. */
  function ClassifyCurrentSelect(value: int64): (c: CurrentSelect)
    ensures c == NotUserSelectedTextThread <==> value == 0
    ensures c.UserSelectedTextThread? ==> c.thread == value
  {
    if value == 0 then NotUserSelectedTextThread else UserSelectedTextThread(value)
  }

  /** "text number": 0 for the console, 1 for the clipboard, otherwise the
      number of the text thread. */
  function ClassifyTextNumber(value: int64): (t: TextNumber)
    ensures t == Console <==> value == 0
    ensures t == Clipboard <==> value == 1
    ensures t.TextThread? ==> t.thread == value
  {
    if value == 0 then Console
    else if value == 1 then Clipboard
    else TextThread(value)
  }

  /** No raw value is lost by classification. */
  lemma ClassifiersInjective(v: int64, w: int64)
    ensures ClassifyCurrentSelect(v) == ClassifyCurrentSelect(w) ==> v == w
    ensures ClassifyTextNumber(v) == ClassifyTextNumber(w) ==> v == w
  {
  }

  /** The specification of `get_text_number`: a missing property panics. */
  function TextNumberOf(info: SentenceInfo): Outcome<TextNumber>
    requires LookupDefined(info, PropertyName.TextNumber)
  {
    match PropertyValue(info, PropertyName.TextNumber)
    case Done(Some(v)) => Done(ClassifyTextNumber(v))
    case _ => Panicked
  }

  /** The specification of `get_current_select`: a missing property panics. */
  function CurrentSelectOf(info: SentenceInfo): Outcome<CurrentSelect>
    requires LookupDefined(info, PropertyName.CurrentSelect)
  {
    match PropertyValue(info, PropertyName.CurrentSelect)
    case Done(Some(v)) => Done(ClassifyCurrentSelect(v))
    case _ => Panicked
  }

  method GetTextNumber(info: SentenceInfo) returns (r: Outcome<TextNumber>)
    requires LookupDefined(info, PropertyName.TextNumber)
    ensures r == TextNumberOf(info)
    ensures info.infoArray.None? ==> r == Panicked
  {
    var value := GetPropertyValue(info, PropertyName.TextNumber);
    if value.Panicked? || value.value.None? {
      return Panicked;
    }
    return Done(ClassifyTextNumber(value.value.value));
  }

  method GetCurrentSelect(info: SentenceInfo) returns (r: Outcome<CurrentSelect>)
    requires LookupDefined(info, PropertyName.CurrentSelect)
    ensures r == CurrentSelectOf(info)
    ensures info.infoArray.None? ==> r == Panicked
  {
    var value := GetPropertyValue(info, PropertyName.CurrentSelect);
    if value.Panicked? || value.value.None? {
      return Panicked;
    }
    return Done(ClassifyCurrentSelect(value.value.value));
  }

  /** On a non-null array each getter returns the classification of the
      first entry named after its property, never a default. */
  lemma GetterOfFirstMatch(entries: seq<Entry>, p: PropertyName, k: nat)
    requires FirstMatchAt(entries, NameBytes(p), k)
    ensures LookupDefined(SentenceInfo(Some(entries)), p)
    ensures p == PropertyName.TextNumber ==>
      TextNumberOf(SentenceInfo(Some(entries))) == Done(ClassifyTextNumber(entries[k].value))
    ensures p == PropertyName.CurrentSelect ==>
      CurrentSelectOf(SentenceInfo(Some(entries))) == Done(ClassifyCurrentSelect(entries[k].value))
  {
    ScanFindsFirstMatch(entries, NameBytes(p), k);
  }

  /** On a non-null array, a name that is not UTF-8 examined before any match
      makes each getter panic, never fall back to a default. */
  lemma GetterPanicsOnInvalid(entries: seq<Entry>, p: PropertyName, k: nat)
    requires FirstInvalidAt(entries, NameBytes(p), k)
    ensures LookupDefined(SentenceInfo(Some(entries)), p)
    ensures p == PropertyName.TextNumber ==> TextNumberOf(SentenceInfo(Some(entries))) == Panicked
    ensures p == PropertyName.CurrentSelect ==> CurrentSelectOf(SentenceInfo(Some(entries))) == Panicked
  {
    ScanPanicsOnInvalidName(entries, NameBytes(p), k);
  }
}
