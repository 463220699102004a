/**
 * The human-readable renderings of property attributes, property details,
 * lookup results and descriptors: each `operator<<` becomes a function that
 * returns the text it puts on the stream.
 *
 * `Brief(...)` of a heap object and the mnemonic of a field representation
 * are computed outside this file; they are carried here as the strings they
 * print.
 */
module Property {
  import opened Common
  import opened Decimal

  // ---------------------------------------------------------------------------
  // Attributes

  /** A PropertyAttributes value: a bit set of which three bits are printed. */
  type Attributes = bv32

  const READ_ONLY: Attributes := 1
  const DONT_ENUM: Attributes := 2
  const DONT_DELETE: Attributes := 4

  /** The three printed bits of an attribute set. */
  function Printed(attributes: Attributes): Attributes
  {
    attributes & (READ_ONLY | DONT_ENUM | DONT_DELETE)
  }

  /** The character shown for one attribute bit: `on` while the bit is clear. */
  function Flag(attributes: Attributes, bit: Attributes, on: char): char
  {
    if attributes & bit == 0 then on else '_'
  }

  /**
   * The `[WEC]` rendering: W for writable, E for enumerable, C for
   * configurable, each replaced by `_` when the bit that denies it is set.
   */
  function AttrString(attributes: Attributes): (s: string)
    ensures |s| == 5 && s[0] == '[' && s[4] == ']'
    ensures s[1] == 'W' <==> attributes & READ_ONLY == 0
    ensures s[2] == 'E' <==> attributes & DONT_ENUM == 0
    ensures s[3] == 'C' <==> attributes & DONT_DELETE == 0
    ensures s[1] in "W_" && s[2] in "E_" && s[3] in "C_"
  {
    ['['] + [Flag(attributes, READ_ONLY, 'W')] + [Flag(attributes, DONT_ENUM, 'E')]
      + [Flag(attributes, DONT_DELETE, 'C')] + [']']
  }

  /** The bit one attribute character shows: set when `_`, clear otherwise. */
  function ShownBit(c: char, bit: Attributes): Attributes
  {
    if c == '_' then bit else 0
  }

  /** Reads a `[WEC]` rendering back as the attribute bits it shows. */
  function ReadAttr(s: string): Option<Attributes>
  {
    if |s| != 5 || s[0] != '[' || s[4] != ']' || s[1] !in "W_" || s[2] !in "E_" || s[3] !in "C_" then None
    else Some(ShownBit(s[1], READ_ONLY) | ShownBit(s[2], DONT_ENUM) | ShownBit(s[3], DONT_DELETE))
  }

  /** Reading the rendering back gives the three printed bits, and nothing else. */
  lemma ReadAttrString(attributes: Attributes)
    ensures ReadAttr(AttrString(attributes)) == Some(Printed(attributes))
  {
    var s := AttrString(attributes);
    assert s[1] == Flag(attributes, READ_ONLY, 'W');
    assert s[2] == Flag(attributes, DONT_ENUM, 'E');
    assert s[3] == Flag(attributes, DONT_DELETE, 'C');
  }

  /** The bits three read characters stand for are recovered by masking. */
  lemma MaskBits(w: Attributes, e: Attributes, c: Attributes)
    requires w == 0 || w == READ_ONLY
    requires e == 0 || e == DONT_ENUM
    requires c == 0 || c == DONT_DELETE
    ensures (w | e | c) & READ_ONLY == w
    ensures (w | e | c) & DONT_ENUM == e
    ensures (w | e | c) & DONT_DELETE == c
  {
  }

  /** A string that reads as attributes is the rendering of those attributes. */
  lemma AttrStringOfRead(s: string)
    requires ReadAttr(s).Some?
    ensures AttrString(ReadAttr(s).value) == s
  {
    var w := ShownBit(s[1], READ_ONLY);
    var e := ShownBit(s[2], DONT_ENUM);
    var c := ShownBit(s[3], DONT_DELETE);
    MaskBits(w, e, c);
    var a := w | e | c;
    assert Flag(a, READ_ONLY, 'W') == s[1];
    assert Flag(a, DONT_ENUM, 'E') == s[2];
    assert Flag(a, DONT_DELETE, 'C') == s[3];
    assert AttrString(a) == [s[0], s[1], s[2], s[3], s[4]] == s;
  }

  /** Two attribute sets agree on the printed bits exactly when they agree bit by bit. */
  lemma PrintedBits(a: Attributes, b: Attributes)
    ensures Printed(a) == Printed(b) <==>
      a & READ_ONLY == b & READ_ONLY && a & DONT_ENUM == b & DONT_ENUM && a & DONT_DELETE == b & DONT_DELETE
  {
  }

  /**
   * Each character depends on its own bit only: two attribute sets print
   * alike exactly when they agree on the three printed bits.
   */
  lemma AttrStringEquality(a: Attributes, b: Attributes)
    ensures AttrString(a) == AttrString(b) <==> Printed(a) == Printed(b)
  {
    PrintedBits(a, b);
    ReadAttrString(a);
    ReadAttrString(b);
    if Printed(a) == Printed(b) {
      assert Flag(a, READ_ONLY, 'W') == Flag(b, READ_ONLY, 'W');
      assert Flag(a, DONT_ENUM, 'E') == Flag(b, DONT_ENUM, 'E');
      assert Flag(a, DONT_DELETE, 'C') == Flag(b, DONT_DELETE, 'C');
    }
  }

  /** The closing part every details rendering ends with. */
  function AttrsTail(attributes: Attributes): string
  {
    ", attrs: " + AttrString(attributes) + ")"
  }

  /** Reads the closing part of a details rendering back as its attribute bits. */
  function ReadAttrsTail(s: string): Option<Attributes>
  {
    if |s| == 15 && s[..9] == ", attrs: " && s[14] == ')' then ReadAttr(s[9..14]) else None
  }

  lemma ReadAttrsTailOf(attributes: Attributes)
    ensures ReadAttrsTail(AttrsTail(attributes)) == Some(Printed(attributes))
  {
    var s := AttrsTail(attributes);
    assert s[..9] == ", attrs: ";
    assert s[9..14] == AttrString(attributes);
    ReadAttrString(attributes);
  }

  // ---------------------------------------------------------------------------
  // Property details

  datatype PropertyType = Field | Constant | Callbacks

  /**
   * The accessors of a PropertyDetails value, as the renderings use them;
   * `mnemonic` is what the representation's `Mnemonic()` prints.
   */
  datatype PropertyDetails = PropertyDetails(
    kind: PropertyType,
    attributes: Attributes,
    dictionaryIndex: int,
    fieldIndex: int,
    pointer: int,
    mnemonic: string)

  /** The label of a dictionary entry's type; a constant never lives in a dictionary. */
  function DictionaryLabel(kind: PropertyType): string
    requires kind != Constant
  {
    if kind == Field then "normal: " else "callbacks: "
  }

  /** Details rendered as a dictionary entry. */
  function DictionaryText(d: PropertyDetails): string
    requires d.kind != Constant
  {
    "(" + DictionaryLabel(d.kind) + ("dictionary_index: " + IntText(d.dictionaryIndex) + AttrsTail(d.attributes))
  }

  /** The type-specific body of a descriptor-array rendering. */
  function DescriptorBody(d: PropertyDetails): string
  {
    match d.kind
    case Constant => "constant: p: " + IntText(d.pointer)
    case Field => "field: " + d.mnemonic + ", field_index: " + IntText(d.fieldIndex) + ", p: " + IntText(d.pointer)
    case Callbacks => "callbacks: p: " + IntText(d.pointer)
  }

  /** Details rendered as a descriptor-array entry. */
  function DescriptorText(d: PropertyDetails): string
  {
    "(" + DescriptorBody(d) + AttrsTail(d.attributes)
  }

  /** What a dictionary rendering shows: the type, the index and the printed attribute bits. */
  datatype DictionaryEntry = DictionaryEntry(kind: PropertyType, dictionaryIndex: int, attributes: Attributes)

  /** The type whose label a dictionary body opens with. */
  function DictionaryKind(r: string): Option<PropertyType>
  {
    if StartsWith(r, DictionaryLabel(Field)) then Some(Field)
    else if StartsWith(r, DictionaryLabel(Callbacks)) then Some(Callbacks)
    else None
  }

  /** Reads `<int>, attrs: [xyz])`: the number and the attribute bits. */
  function ReadIndexAndAttrs(n: string): Option<(int, Attributes)>
  {
    var m := IndexOf(n, ',');
    match (ReadInt(n[..m]), ReadAttrsTail(n[m..]))
    case (Some(i), Some(a)) => Some((i, a))
    case _ => None
  }

  /** Reads a dictionary rendering back. */
  function ReadDictionary(t: string): Option<DictionaryEntry>
  {
    match After(t, "(")
    case None => None
    case Some(r) =>
      match DictionaryKind(r)
      case None => None
      case Some(kind) =>
        match After(r[|DictionaryLabel(kind)|..], "dictionary_index: ")
        case None => None
        case Some(n) =>
          match ReadIndexAndAttrs(n)
          case None => None
          case Some((i, a)) => Some(DictionaryEntry(kind, i, a))
  }

  /** A string cannot start with two prefixes that differ at a common position. */
  lemma PrefixesClash(r: string, p: string, q: string, i: nat)
    requires StartsWith(r, p) && i < |p| && i < |q| && p[i] != q[i]
    ensures !StartsWith(r, q)
  {
    assert r[i] == r[..|p|][i];
  }

  lemma DictionaryKindOf(r: string, kind: PropertyType)
    requires kind != Constant && StartsWith(r, DictionaryLabel(kind))
    ensures DictionaryKind(r) == Some(kind)
  {
    if kind == Callbacks {
      PrefixesClash(r, DictionaryLabel(Callbacks), DictionaryLabel(Field), 0);
    }
  }

  lemma ReadIndexAndAttrsOf(i: int, attributes: Attributes)
    ensures ReadIndexAndAttrs(IntText(i) + AttrsTail(attributes)) == Some((i, Printed(attributes)))
  {
    IntTextChars(i);
    IndexOfConcat(IntText(i), AttrsTail(attributes), ',');
    IntTextReads(i);
    ReadAttrsTailOf(attributes);
  }

  /**
   * A dictionary rendering reads back as the entry's type, its dictionary
   * index and its printed attribute bits.
   */
  lemma ReadDictionaryText(d: PropertyDetails)
    requires d.kind != Constant
    ensures ReadDictionary(DictionaryText(d)) == Some(DictionaryEntry(d.kind, d.dictionaryIndex, Printed(d.attributes)))
  {
    var lab := DictionaryLabel(d.kind);
    var n := IntText(d.dictionaryIndex) + AttrsTail(d.attributes);
    var x := "dictionary_index: " + n;
    var r := lab + x;
    assert DictionaryText(d) == "(" + r;
    AfterConcat("(", r);
    AfterConcat(lab, x);
    DictionaryKindOf(r, d.kind);
    assert r[|lab|..] == x;
    AfterConcat("dictionary_index: ", n);
    ReadIndexAndAttrsOf(d.dictionaryIndex, d.attributes);
  }

  /** How a descriptor rendering's body opens for each type. */
  function DescriptorLabel(kind: PropertyType): string
  {
    match kind
    case Constant => "constant: p: "
    case Field => "field: "
    case Callbacks => "callbacks: p: "
  }

  /** The type whose opening a descriptor body shows. */
  function KindOfBody(r: string): Option<PropertyType>
  {
    if StartsWith(r, DescriptorLabel(Constant)) then Some(Constant)
    else if StartsWith(r, DescriptorLabel(Field)) then Some(Field)
    else if StartsWith(r, DescriptorLabel(Callbacks)) then Some(Callbacks)
    else None
  }

  /** What the opening of a descriptor rendering shows about the type. */
  function DescriptorKind(t: string): Option<PropertyType>
  {
    match After(t, "(")
    case None => None
    case Some(r) => KindOfBody(r)
  }

  /** The three openings are told apart by their first two characters. */
  lemma KindOfLabel(r: string, kind: PropertyType)
    requires StartsWith(r, DescriptorLabel(kind))
    ensures KindOfBody(r) == Some(kind)
  {
    var lab := DescriptorLabel(kind);
    match kind
    case Constant =>
    case Field =>
      PrefixesClash(r, lab, DescriptorLabel(Constant), 0);
    case Callbacks =>
      PrefixesClash(r, lab, DescriptorLabel(Constant), 1);
      PrefixesClash(r, lab, DescriptorLabel(Field), 0);
  }

  lemma BodyOpensWithLabel(d: PropertyDetails)
    ensures StartsWith(DescriptorBody(d), DescriptorLabel(d.kind))
  {
    var lab := DescriptorLabel(d.kind);
    if d.kind == Field {
      var f1 := lab + d.mnemonic;
      var f2 := f1 + ", field_index: ";
      var f3 := f2 + IntText(d.fieldIndex);
      var f4 := f3 + ", p: ";
      StartsWithAppend(lab, lab, d.mnemonic);
      StartsWithAppend(f1, lab, ", field_index: ");
      StartsWithAppend(f2, lab, IntText(d.fieldIndex));
      StartsWithAppend(f3, lab, ", p: ");
      StartsWithAppend(f4, lab, IntText(d.pointer));
    } else {
      StartsWithAppend(lab, lab, IntText(d.pointer));
    }
  }

  /** The opening of a descriptor rendering names the type. */
  lemma DescriptorKindOf(d: PropertyDetails)
    ensures DescriptorKind(DescriptorText(d)) == Some(d.kind)
  {
    var body := DescriptorBody(d);
    var r := body + AttrsTail(d.attributes);
    assert DescriptorText(d) == "(" + r;
    AfterConcat("(", r);
    BodyOpensWithLabel(d);
    StartsWithAppend(body, DescriptorLabel(d.kind), AttrsTail(d.attributes));
    KindOfLabel(r, d.kind);
  }

  /**
   * What a descriptor rendering shows: the type, the pointer and the printed
   * attribute bits, and for a field also the mnemonic and the field index
   * (the other types show neither; they read as "" and 0).
   */
  datatype DescriptorView = DescriptorView(
    kind: PropertyType, mnemonic: string, fieldIndex: int, pointer: int, attributes: Attributes)

  function ViewOf(d: PropertyDetails): DescriptorView
  {
    DescriptorView(d.kind, if d.kind == Field then d.mnemonic else "",
                   if d.kind == Field then d.fieldIndex else 0, d.pointer, Printed(d.attributes))
  }

  /** Everything of a descriptor rendering before the pointer. */
  function PointerHead(d: PropertyDetails): string
  {
    match d.kind
    case Constant => "(constant: p: "
    case Field => "(field: " + d.mnemonic + ", field_index: " + IntText(d.fieldIndex) + ", p: "
    case Callbacks => "(callbacks: p: "
  }

  /** What a descriptor rendering's type label is preceded by: nothing, or `(field: ` and the mnemonic. */
  function LabelRest(x: string, d: PropertyDetails): string
  {
    if d.kind == Field then x + "(field: " + d.mnemonic else x
  }

  /** Reads the number after the last space of `s`, with what comes before it. */
  function IntAtEnd(s: string): Option<(string, int)>
  {
    var k := LastAfter(s, ' ');
    match ReadInt(s[k..])
    case None => None
    case Some(i) => Some((s[..k], i))
  }

  /**
   * Reads, from the right, the part of a descriptor rendering before its
   * pointer: the type, the field index of a field, and what precedes the
   * type's label (for a field, up to the end of the mnemonic).
   */
  function KindAtEnd(h: string): Option<(PropertyType, int, string)>
  {
    match Before(h, "p: ")
    case None => None
    case Some(h1) =>
      if Before(h1, "(constant: ").Some? then Some((Constant, 0, Before(h1, "(constant: ").value))
      else if Before(h1, "(callbacks: ").Some? then Some((Callbacks, 0, Before(h1, "(callbacks: ").value))
      else
        match Before(h1, ", ")
        case None => None
        case Some(h2) =>
          match IntAtEnd(h2)
          case None => None
          case Some((h3, fieldIndex)) =>
            match Before(h3, ", field_index: ")
            case None => None
            case Some(h4) => Some((Field, fieldIndex, h4))
  }

  /**
   * Reads the descriptor rendering that `t` ends with, from the right: the
   * attribute bits, the pointer, the type and a field's index. The mnemonic
   * is left in the returned remainder.
   */
  function ReadDescriptorEnd(t: string): Option<(DescriptorView, string)>
  {
    if |t| < 15 then None
    else
      match ReadAttrsTail(t[|t| - 15..])
      case None => None
      case Some(a) => ReadPointerAndKind(t[..|t| - 15], a)
  }

  /** Reads the pointer at the end of `s`, then the type and a field's index before it. */
  function ReadPointerAndKind(s: string, a: Attributes): Option<(DescriptorView, string)>
  {
    match IntAtEnd(s)
    case None => None
    case Some((h, p)) =>
      match KindAtEnd(h)
      case None => None
      case Some((kind, fieldIndex, rest)) => Some((DescriptorView(kind, "", fieldIndex, p, a), rest))
  }

  /** Reads a descriptor rendering back. */
  function ReadDescriptor(t: string): Option<DescriptorView>
  {
    match ReadDescriptorEnd(t)
    case None => None
    case Some((v, rest)) =>
      if v.kind == Field then
        match After(rest, "(field: ")
        case None => None
        case Some(m) => Some(v.(mnemonic := m))
      else if rest == "" then Some(v)
      else None
  }

  lemma IntAtEndOf(h: string, i: int)
    requires h != [] && h[|h| - 1] == ' '
    ensures IntAtEnd(h + IntText(i)) == Some((h, i))
  {
    IntTextChars(i);
    LastAfterConcat(h, IntText(i), ' ');
    assert (h + IntText(i))[|h|..] == IntText(i);
    assert (h + IntText(i))[..|h|] == h;
    IntTextReads(i);
  }

  lemma KindAtEndOf(x: string, d: PropertyDetails)
    ensures KindAtEnd(x + PointerHead(d))
      == Some((d.kind, if d.kind == Field then d.fieldIndex else 0, LabelRest(x, d)))
  {
    match d.kind {
      case Constant =>
        assert x + PointerHead(d) == (x + "(constant: ") + "p: ";
        BeforeConcat(x + "(constant: ", "p: ");
        BeforeConcat(x, "(constant: ");
      case Callbacks =>
        var h1 := x + "(callbacks: ";
        assert x + PointerHead(d) == h1 + "p: ";
        BeforeConcat(h1, "p: ");
        BeforeConcat(x, "(callbacks: ");
        SuffixesClash(h1, "(callbacks: ", "(constant: ", 2);
      case Field =>
        var h4 := x + "(field: " + d.mnemonic;
        var h3 := h4 + ", field_index: ";
        var h2 := h3 + IntText(d.fieldIndex);
        var h1 := h2 + ", ";
        assert x + PointerHead(d) == h1 + "p: ";
        BeforeConcat(h1, "p: ");
        BeforeConcat(h2, ", ");
        SuffixesClash(h1, ", ", "(constant: ", 1);
        SuffixesClash(h1, ", ", "(callbacks: ", 1);
        IntAtEndOf(h3, d.fieldIndex);
        BeforeConcat(h4, ", field_index: ");
    }
  }

  /** The descriptor rendering at the end of any text reads back, from the right, as all it shows but the mnemonic. */
  lemma ReadDescriptorEndOf(x: string, d: PropertyDetails)
    ensures ReadDescriptorEnd(x + DescriptorText(d)) == Some((ViewOf(d).(mnemonic := ""), LabelRest(x, d)))
  {
    var s := x + PointerHead(d) + IntText(d.pointer);
    TextAtPointer(x, d);
    AttrsTailSplit(s, d.attributes);
    PointerAndKindOf(x, d, Printed(d.attributes));
  }

  /** The last fifteen characters are the attributes; the reader goes on with what precedes them. */
  lemma AttrsTailSplit(s: string, attributes: Attributes)
    ensures ReadDescriptorEnd(s + AttrsTail(attributes)) == ReadPointerAndKind(s, Printed(attributes))
  {
    var t := s + AttrsTail(attributes);
    assert t[|t| - 15..] == AttrsTail(attributes);
    assert t[..|t| - 15] == s;
    ReadAttrsTailOf(attributes);
  }

  lemma PointerAndKindOf(x: string, d: PropertyDetails, a: Attributes)
    ensures ReadPointerAndKind(x + PointerHead(d) + IntText(d.pointer), a)
      == Some((DescriptorView(d.kind, "", if d.kind == Field then d.fieldIndex else 0, d.pointer, a), LabelRest(x, d)))
  {
    var h := x + PointerHead(d);
    assert h[|h| - 1] == ' ';
    IntAtEndOf(h, d.pointer);
    KindAtEndOf(x, d);
  }

  /** A descriptor rendering splits at its pointer. */
  lemma TextAtPointer(x: string, d: PropertyDetails)
    ensures x + DescriptorText(d) == x + PointerHead(d) + IntText(d.pointer) + AttrsTail(d.attributes)
  {
    BodyAtPointer(d);
    AppendAssoc(x, PointerHead(d) + IntText(d.pointer), AttrsTail(d.attributes));
    AppendAssoc(x, PointerHead(d), IntText(d.pointer));
  }

  lemma BodyAtPointer(d: PropertyDetails)
    ensures "(" + DescriptorBody(d) == PointerHead(d) + IntText(d.pointer)
  {
    var p := IntText(d.pointer);
    match d.kind {
      case Constant =>
        AppendAssoc("(", "constant: p: ", p);
      case Callbacks =>
        AppendAssoc("(", "callbacks: p: ", p);
      case Field =>
        PrependToChain("(", "field: ", d.mnemonic, ", field_index: ", IntText(d.fieldIndex), ", p: ", p);
        assert "(" + "field: " == "(field: ";
    }
  }

  /**
   * A descriptor rendering reads back as everything it shows: the type, the
   * pointer and the printed attribute bits, and a field's mnemonic and index.
   */
  lemma ReadDescriptorText(d: PropertyDetails)
    ensures ReadDescriptor(DescriptorText(d)) == Some(ViewOf(d))
  {
    DescriptorEndOfText(d);
    ReadDescriptorFromEnd(DescriptorText(d), ViewOf(d).(mnemonic := ""), d.mnemonic);
  }

  /** A descriptor rendering on its own: what precedes the pointer part is `(field: ` and the mnemonic, or nothing. */
  lemma DescriptorEndOfText(d: PropertyDetails)
    ensures ReadDescriptorEnd(DescriptorText(d))
      == Some((ViewOf(d).(mnemonic := ""), if d.kind == Field then "(field: " + d.mnemonic else ""))
  {
    assert "" + DescriptorText(d) == DescriptorText(d);
    assert LabelRest("", d) == if d.kind == Field then "(field: " + d.mnemonic else "" by {
      if d.kind == Field {
        AppendAssoc("", "(field: ", d.mnemonic);
      }
    }
    ReadDescriptorEndOf("", d);
  }

  /** The mnemonic of a field is what remains before the pointer part, after `(field: `. */
  lemma ReadDescriptorFromEnd(t: string, v: DescriptorView, m: string)
    requires ReadDescriptorEnd(t) == Some((v, if v.kind == Field then "(field: " + m else ""))
    ensures ReadDescriptor(t) == Some(if v.kind == Field then v.(mnemonic := m) else v)
  {
    if v.kind == Field {
      AfterConcat("(field: ", m);
    }
  }

  /** Two details render alike in a descriptor array exactly when they agree on what the rendering shows. */
  lemma DescriptorTextEquality(d: PropertyDetails, e: PropertyDetails)
    ensures DescriptorText(d) == DescriptorText(e) <==> ViewOf(d) == ViewOf(e)
  {
    ReadDescriptorText(d);
    ReadDescriptorText(e);
    if ViewOf(d) == ViewOf(e) {
      AttrStringEquality(d.attributes, e.attributes);
      assert DescriptorBody(d) == DescriptorBody(e);
    }
  }

  /** A dictionary rendering does not open like a descriptor rendering. */
  lemma DictionaryNotDescriptor(d: PropertyDetails)
    requires d.kind != Constant
    ensures DescriptorKind(DictionaryText(d)) == None
  {
    var lab := DictionaryLabel(d.kind);
    var n := "dictionary_index: " + IntText(d.dictionaryIndex) + AttrsTail(d.attributes);
    assert DictionaryText(d) == "(" + (lab + n);
    AfterConcat("(", lab + n);
    DictionaryBodyNotDescriptor(d.kind, n);
  }

  /** After its `(`, a dictionary rendering starts with none of the descriptor labels. */
  lemma DictionaryBodyNotDescriptor(kind: PropertyType, n: string)
    requires kind != Constant && n != [] && n[0] == 'd'
    ensures KindOfBody(DictionaryLabel(kind) + n) == None
  {
    var lab := DictionaryLabel(kind);
    var r := lab + n;
    StartsWithAppend(lab, lab, n);
    if kind == Field {
      PrefixesClash(r, lab, DescriptorLabel(Constant), 0);
      PrefixesClash(r, lab, DescriptorLabel(Field), 0);
      PrefixesClash(r, lab, DescriptorLabel(Callbacks), 0);
    } else {
      PrefixesClash(r, lab, DescriptorLabel(Constant), 1);
      PrefixesClash(r, lab, DescriptorLabel(Field), 0);
      assert r[11] == 'd';
      PrefixesClash(r, r[..12], DescriptorLabel(Callbacks), 11);
    }
  }

  /** No dictionary rendering is also a descriptor rendering. */
  lemma FormatsDiffer(d: PropertyDetails, e: PropertyDetails)
    requires d.kind != Constant
    ensures DictionaryText(d) != DescriptorText(e)
  {
    DictionaryNotDescriptor(d);
    DescriptorKindOf(e);
  }

  /**
   * `Print`: the dictionary rendering in dictionary mode, the descriptor
   * rendering otherwise, then a newline. Only dictionary-mode calls are
   * barred from constants.
   */
  function Print(d: PropertyDetails, dictionaryMode: bool): string
    requires dictionaryMode ==> d.kind != Constant
  {
    (if dictionaryMode then DictionaryText(d) else DescriptorText(d)) + "\n"
  }

  /** Which rendering a printed line holds: dictionary (true) or descriptor (false). */
  function PrintedMode(t: string): Option<bool>
  {
    if t == [] || t[|t| - 1] != '\n' then None
    else if DescriptorKind(t[..|t| - 1]).Some? then Some(false)
    else if ReadDictionary(t[..|t| - 1]).Some? then Some(true)
    else None
  }

  lemma ModeOfLine(t: string, dictionaryMode: bool)
    requires dictionaryMode ==> DescriptorKind(t).None? && ReadDictionary(t).Some?
    requires !dictionaryMode ==> DescriptorKind(t).Some?
    ensures PrintedMode(t + "\n") == Some(dictionaryMode)
  {
    assert (t + "\n")[..|t + "\n"| - 1] == t;
  }

  /** The printed line shows which mode it was printed in, constants included. */
  lemma PrintedModeOf(d: PropertyDetails, dictionaryMode: bool)
    requires dictionaryMode ==> d.kind != Constant
    ensures PrintedMode(Print(d, dictionaryMode)) == Some(dictionaryMode)
  {
    if dictionaryMode {
      DictionaryNotDescriptor(d);
      ReadDictionaryText(d);
      ModeOfLine(DictionaryText(d), true);
    } else {
      DescriptorKindOf(d);
      ModeOfLine(DescriptorText(d), false);
    }
  }

  /** Two texts followed by a newline are equal only if the texts are. */
  lemma NewlineCancels(a: string, b: string)
    requires a + "\n" == b + "\n"
    ensures a == b
  {
    assert a == (a + "\n")[..|a|];
  }

  /** For an entry that may be printed either way, the line is the dictionary rendering exactly in dictionary mode. */
  lemma PrintSelectsFormat(d: PropertyDetails, dictionaryMode: bool)
    requires d.kind != Constant
    ensures Print(d, dictionaryMode) == DictionaryText(d) + "\n" <==> dictionaryMode
    ensures Print(d, dictionaryMode) == DescriptorText(d) + "\n" <==> !dictionaryMode
  {
    if DictionaryText(d) + "\n" == DescriptorText(d) + "\n" {
      NewlineCancels(DictionaryText(d), DescriptorText(d));
      FormatsDiffer(d, d);
    }
  }

  // ---------------------------------------------------------------------------
  // Descriptors

  /** A descriptor: the brief forms of its key and value, and its details. */
  datatype Descriptor = Descriptor(keyBrief: string, valueBrief: string, details: PropertyDetails)

  /** A descriptor rendered as key, value and descriptor-array details. */
  function DescriptorLine(x: Descriptor): string
  {
    "Descriptor " + x.keyBrief + " @ " + x.valueBrief + " " + DescriptorText(x.details)
  }

  /**
   * A descriptor line opens with `Descriptor ` and closes with its details'
   * descriptor rendering, which reads back from the right as the type, the
   * pointer, the printed attribute bits and a field's index.
   */
  lemma DescriptorLineShape(x: Descriptor)
    ensures StartsWith(DescriptorLine(x), "Descriptor ")
    ensures var r := ReadDescriptorEnd(DescriptorLine(x));
      r.Some? && r.value.0 == ViewOf(x.details).(mnemonic := "")
  {
    var head := "Descriptor " + x.keyBrief + " @ " + x.valueBrief + " ";
    assert DescriptorLine(x) == "Descriptor " + (x.keyBrief + " @ " + x.valueBrief + " " + DescriptorText(x.details));
    assert DescriptorLine(x) == head + DescriptorText(x.details);
    ReadDescriptorEndOf(head, x.details);
  }

  // ---------------------------------------------------------------------------
  // Lookup results

  /**
   * What a lookup result's rendering uses: whether it found a property,
   * whether that is a transition, and the brief form of the transition target.
   */
  datatype LookupResult = LookupResult(found: bool, transition: bool, targetBrief: string)

  function LookupText(r: LookupResult): string
  {
    if !r.found then "Not Found\n"
    else "LookupResult:\n" + (if r.transition then " -transition target:\n" + r.targetBrief + "\n" else "")
  }

  /** The part of a lookup result its rendering shows. */
  function Shown(r: LookupResult): LookupResult
  {
    if !r.found then LookupResult(false, false, "")
    else if !r.transition then LookupResult(true, false, "")
    else r
  }

  /** Reads a lookup result's rendering back. */
  function ReadLookup(t: string): Option<LookupResult>
  {
    if t == "Not Found\n" then Some(LookupResult(false, false, ""))
    else
      match After(t, "LookupResult:\n")
      case None => None
      case Some(rest) =>
        if rest == [] then Some(LookupResult(true, false, ""))
        else
          match After(rest, " -transition target:\n")
          case None => None
          case Some(b) =>
            if b != [] && b[|b| - 1] == '\n' then Some(LookupResult(true, true, b[..|b| - 1])) else None
  }

  /** Reading the rendering back gives the shown part of the result. */
  lemma ReadLookupText(r: LookupResult)
    ensures ReadLookup(LookupText(r)) == Some(Shown(r))
  {
    if r.found {
      var t := LookupText(r);
      assert t[0] == 'L';
      var rest := if r.transition then " -transition target:\n" + r.targetBrief + "\n" else "";
      assert t == "LookupResult:\n" + rest;
      AfterConcat("LookupResult:\n", rest);
      if r.transition {
        var b := r.targetBrief + "\n";
        assert rest == " -transition target:\n" + b;
        AfterConcat(" -transition target:\n", b);
        assert b[..|b| - 1] == r.targetBrief;
      }
    }
  }

  /**
   * The rendering is exactly `Not Found\n` when nothing was found; otherwise
   * it opens with `LookupResult:\n` and goes on past it exactly for a transition.
   */
  lemma LookupTextCases(r: LookupResult)
    ensures LookupText(r) == "Not Found\n" <==> !r.found
    ensures r.found ==> StartsWith(LookupText(r), "LookupResult:\n")
    ensures r.found ==> (|LookupText(r)| > 14 <==> r.transition)
  {
    var t := LookupText(r);
    if r.found {
      assert t[0] == 'L';
      var rest := if r.transition then " -transition target:\n" + r.targetBrief + "\n" else "";
      assert t == "LookupResult:\n" + rest;
      assert t[..14] == "LookupResult:\n";
    }
  }

  /** Two results render alike exactly when they show the same part. */
  lemma LookupTextEquality(r: LookupResult, s: LookupResult)
    ensures LookupText(r) == LookupText(s) <==> Shown(r) == Shown(s)
  {
    ReadLookupText(r);
    ReadLookupText(s);
  }
}
