/**
 * The three ASCII reference tables: the control codes 0..31, the printable codes 32..127 and
 * the extended (Windows-1252 / ISO 8859-1) codes 128..255, each code with its octal,
 * hexadecimal and binary spellings, a symbol, an HTML reference, an escape and a description.
 */
module AsciiTables {
  import opened Wrappers
  import opened Text

  datatype AsciiEntry = AsciiEntry(
    dec: nat, oct: string, hex: string, bin: string,
    symbol: string, html: string, escape: string, description: string)

  /** The descriptions of the control codes 0..31, in code order. */
  const CONTROL_DESCRIPTIONS: seq<string> :=
      ["Caractère Nul (Null)", "Début d'en-tête (Start of Heading)", "Début de texte (Start of Text)", "Fin de texte (End of Text)"]
    + ["Fin de transmission (End of Transmission)", "Demande (Enquiry)", "Accusé de réception (Acknowledgment)", "Sonnerie (Bell)"]
    + ["Retour arrière (Backspace)", "Tabulation horizontale (Horizontal Tab)", "Saut de ligne (Line Feed)", "Tabulation verticale (Vertical Tab)"]
    + ["Saut de page (Form Feed)", "Retour chariot (Carriage Return)", "Décode (Shift Out)", "Code (Shift In)"]
    + ["Échappement liaison de données (Data Link Escape)", "Commande de périphérique 1 (XON)", "Commande de périphérique 2", "Commande de périphérique 3 (XOFF)"]
    + ["Commande de périphérique 4", "Accusé de réception négatif (Negative Acknowledgment)", "Repos synchrone (Synchronous Idle)", "Fin de bloc de transmission (End of Transmission Block)"]
    + ["Annuler (Cancel)", "Fin de support (End of Medium)", "Substituer (Substitute)", "Échappement (Escape)"]
    + ["Séparateur de fichier (File Separator)", "Séparateur de groupe (Group Separator)", "Séparateur d'enregistrement (Record Separator)", "Séparateur d'unité (Unit Separator)"]

  /** The Control Pictures symbols of the control codes 0..31. */
  const CONTROL_SYMBOLS: seq<string> :=
      ["␀", "␁", "␂", "␃", "␄", "␅", "␆", "␇"]
    + ["␈", "␉", "␊", "␋", "␌", "␍", "␎", "␏"]
    + ["␐", "␑", "␒", "␓", "␔", "␕", "␖", "␗"]
    + ["␘", "␙", "␚", "␛", "␜", "␝", "␞", "␟"]

  /** The symbols of the codes 128..159. */
  const EXTENDED_SYMBOLS: seq<string> :=
      ["€", " ", "‚", "ƒ", "„", "…", "†", "‡"]
    + ["ˆ", "‰", "Š", "‹", "Œ", " ", "Ž", " "]
    + [" ", "‘", "’", "“", "”", "•", "–", "—"]
    + ["˜", "™", "š", "›", "œ", " ", "ž", "Ÿ"]

  /** The named HTML entities of the codes 160..255. */
  const HTML_ENTITIES: seq<string> :=
      ["&nbsp;", "&iexcl;", "&cent;", "&pound;", "&curren;", "&yen;", "&brvbar;", "&sect;"]
    + ["&uml;", "&copy;", "&ordf;", "&laquo;", "&not;", "&shy;", "&reg;", "&macr;"]
    + ["&deg;", "&plusmn;", "&sup2;", "&sup3;", "&acute;", "&micro;", "&para;", "&middot;"]
    + ["&cedil;", "&sup1;", "&ordm;", "&raquo;", "&frac14;", "&frac12;", "&frac34;", "&iquest;"]
    + ["&Agrave;", "&Aacute;", "&Acirc;", "&Atilde;", "&Auml;", "&Aring;", "&AElig;", "&Ccedil;"]
    + ["&Egrave;", "&Eacute;", "&Ecirc;", "&Euml;", "&Igrave;", "&Iacute;", "&Icirc;", "&Iuml;"]
    + ["&ETH;", "&Ntilde;", "&Ograve;", "&Oacute;", "&Ocirc;", "&Otilde;", "&Ouml;", "&times;"]
    + ["&Oslash;", "&Ugrave;", "&Uacute;", "&Ucirc;", "&Uuml;", "&Yacute;", "&THORN;", "&szlig;"]
    + ["&agrave;", "&aacute;", "&acirc;", "&atilde;", "&auml;", "&aring;", "&aelig;", "&ccedil;"]
    + ["&egrave;", "&eacute;", "&ecirc;", "&euml;", "&igrave;", "&iacute;", "&icirc;", "&iuml;"]
    + ["&eth;", "&ntilde;", "&ograve;", "&oacute;", "&ocirc;", "&otilde;", "&ouml;", "&divide;"]
    + ["&oslash;", "&ugrave;", "&uacute;", "&ucirc;", "&uuml;", "&yacute;", "&thorn;", "&yuml;"]

  /** The descriptions of the codes 128..255. */
  const EXTENDED_DESCRIPTIONS: seq<string> :=
      ["Signe Euro", "Non assigné", "Guillemet-virgule simple inférieur", "Lettre f latine minuscule avec crochet"]
    + ["Guillemet-virgule double inférieur", "Points de suspension", "Dague", "Double dague"]
    + ["Accent circonflexe", "Signe pour mille", "S majuscule avec caron", "Guillemet simple vers la gauche"]
    + ["Ligature OE majuscule", "Non assigné", "Z majuscule avec caron", "Non assigné"]
    + ["Non assigné", "Guillemet-apostrophe culbuté", "Guillemet-apostrophe", "Guillemet-apostrophe double culbuté"]
    + ["Guillemet-apostrophe double", "Puce", "Tiret demi-cadratin", "Tiret cadratin"]
    + ["Tilde", "Signe de marque commerciale", "s minuscule avec caron", "Guillemet simple vers la droite"]
    + ["Ligature oe minuscule", "Non assigné", "z minuscule avec caron", "Y majuscule avec tréma"]
    + ["Espace insécable", "Point d'exclamation inversé", "Signe centime", "Signe livre"]
    + ["Signe monétaire", "Signe yen", "Barre verticale brisée", "Signe de section"]
    + ["Tréma", "Signe de copyright", "Indicateur ordinal féminin", "Guillemet français ouvrant"]
    + ["Signe non", "Trait d'union conditionnel", "Signe de marque déposée", "Macron"]
    + ["Signe de degré", "Signe plus ou moins", "Exposant deux", "Exposant trois"]
    + ["Accent aigu", "Signe micro", "Signe de paragraphe", "Point médian"]
    + ["Cédille", "Exposant un", "Indicateur ordinal masculin", "Guillemet français fermant"]
    + ["Fraction un quart", "Fraction un demi", "Fraction trois quarts", "Point d'interrogation inversé"]
    + ["A majuscule avec accent grave", "A majuscule avec accent aigu", "A majuscule avec accent circonflexe", "A majuscule avec tilde"]
    + ["A majuscule avec tréma", "A majuscule avec rond en chef", "AE majuscule", "C majuscule avec cédille"]
    + ["E majuscule avec accent grave", "E majuscule avec accent aigu", "E majuscule avec accent circonflexe", "E majuscule avec tréma"]
    + ["I majuscule avec accent grave", "I majuscule avec accent aigu", "I majuscule avec accent circonflexe", "I majuscule avec tréma"]
    + ["Eth majuscule", "N majuscule avec tilde", "O majuscule avec accent grave", "O majuscule avec accent aigu"]
    + ["O majuscule avec accent circonflexe", "O majuscule avec tilde", "O majuscule avec tréma", "Signe de multiplication"]
    + ["O majuscule barré", "U majuscule avec accent grave", "U majuscule avec accent aigu", "U majuscule avec accent circonflexe"]
    + ["U majuscule avec tréma", "Y majuscule avec accent aigu", "Thorn majuscule", "S minuscule allemand (eszett)"]
    + ["a minuscule avec accent grave", "a minuscule avec accent aigu", "a minuscule avec accent circonflexe", "a minuscule avec tilde"]
    + ["a minuscule avec tréma", "a minuscule avec rond en chef", "ae minuscule", "c minuscule avec cédille"]
    + ["e minuscule avec accent grave", "e minuscule avec accent aigu", "e minuscule avec accent circonflexe", "e minuscule avec tréma"]
    + ["i minuscule avec accent grave", "i minuscule avec accent aigu", "i minuscule avec accent circonflexe", "i minuscule avec tréma"]
    + ["eth minuscule", "n minuscule avec tilde", "o minuscule avec accent grave", "o minuscule avec accent aigu"]
    + ["o minuscule avec accent circonflexe", "o minuscule avec tilde", "o minuscule avec tréma", "Signe de division"]
    + ["o minuscule barré", "u minuscule avec accent grave", "u minuscule avec accent aigu", "u minuscule avec accent circonflexe"]
    + ["u minuscule avec tréma", "y minuscule avec accent aigu", "thorn minuscule", "y minuscule avec tréma"]

  /** A lookup in a table keyed by the consecutive codes first, first + 1, ... */
  function Lookup(table: seq<string>, first: nat, dec: nat): (r: Option<string>)
    ensures r.Some? <==> first <= dec < first + |table|
    ensures r.Some? ==> r.value == table[dec - first]
  {
    if first <= dec < first + |table| then Some(table[dec - first]) else None
  }

  /** `dec.toString(8).padStart(3, '0')`. */
  function Oct(dec: nat): string
  {
    PadStart(ToRadix(dec, 8), 3, '0')
  }

  /** `dec.toString(16).uppercase().padStart(2, '0')`. */
  function Hex(dec: nat): string
  {
    PadStart(Upper(ToRadix(dec, 16)), 2, '0')
  }

  /** `dec.toString(2).padStart(8, '0')`. */
  function Bin(dec: nat): string
  {
    PadStart(ToRadix(dec, 2), 8, '0')
  }

  /** The numeric character reference `&#dec;`. */
  function NumericReference(dec: nat): string
  {
    "&#" + NatToString(dec) + ";"
  }

  function ControlEscape(dec: nat): string
  {
    match dec
    case 8 => "\\b"
    case 9 => "\\t"
    case 10 => "\\n"
    case 12 => "\\f"
    case 13 => "\\r"
    case _ => ""
  }

  /** `getControlEntries`, for one code. */
  function ControlEntry(dec: nat): AsciiEntry
    requires dec <= 31
  {
    AsciiEntry(
      dec, Oct(dec), Hex(dec), Bin(dec),
      Lookup(CONTROL_SYMBOLS, 0, dec).GetOr("^" + [(dec + 64) as char]),
      NumericReference(dec),
      ControlEscape(dec),
      Lookup(CONTROL_DESCRIPTIONS, 0, dec).GetOr(""))
  }

  function PrintableEntity(dec: nat): Option<string>
  {
    match dec
    case 34 => Some("&quot;")
    case 38 => Some("&amp;")
    case 60 => Some("&lt;")
    case 62 => Some("&gt;")
    case _ => None
  }

  function PrintableEscape(dec: nat): string
  {
    match dec
    case 34 => "\\\""
    case 39 => "\\'"
    case 92 => "\\\\"
    case _ => ""
  }

  /** The HTML column: the named entity, when there is one, before the numeric reference. */
  function Html(named: Option<string>, dec: nat): string
  {
    if named.Some? then named.value + " / " + NumericReference(dec) else NumericReference(dec)
  }

  /** `getPrintableEntries`, for one code. */
  function PrintableEntry(dec: nat): AsciiEntry
    requires 32 <= dec <= 127
  {
    AsciiEntry(
      dec, Oct(dec), Hex(dec), Bin(dec),
      if dec == 32 then "␠" else [dec as char],
      Html(PrintableEntity(dec), dec),
      PrintableEscape(dec),
      if dec == 32 then "Espace" else if dec == 127 then "Supprimer" else "")
  }

  /** `getExtendedEntries`, for one code. */
  function ExtendedEntry(dec: nat): AsciiEntry
    requires 128 <= dec <= 255
  {
    AsciiEntry(
      dec, Oct(dec), Hex(dec), Bin(dec),
      Lookup(EXTENDED_SYMBOLS, 128, dec).GetOr([dec as char]),
      Html(Lookup(HTML_ENTITIES, 160, dec), dec),
      "",
      Lookup(EXTENDED_DESCRIPTIONS, 128, dec).GetOr(""))
  }

  function ControlEntries(): seq<AsciiEntry>
  {
    seq(32, i requires 0 <= i < 32 => ControlEntry(i))
  }

  function PrintableEntries(): seq<AsciiEntry>
  {
    seq(96, i requires 0 <= i < 96 => PrintableEntry(32 + i))
  }

  function ExtendedEntries(): seq<AsciiEntry>
  {
    seq(128, i requires 0 <= i < 128 => ExtendedEntry(128 + i))
  }

  /** The entry of a code in whichever table holds it. */
  function Entry(dec: nat): AsciiEntry
    requires dec <= 255
  {
    if dec < 32 then ControlEntry(dec) else if dec < 128 then PrintableEntry(dec) else ExtendedEntry(dec)
  }

  // ------------------------------------------------------------ the three tables

  /** Together the tables list every code 0..255 once, in ascending order. */
  lemma TablesCoverAllCodes()
    ensures |ControlEntries()| == 32 && |PrintableEntries()| == 96 && |ExtendedEntries()| == 128
    ensures var all := ControlEntries() + PrintableEntries() + ExtendedEntries();
            |all| == 256 && forall i :: 0 <= i < 256 ==> all[i] == Entry(i) && all[i].dec == i
  {
    var all := ControlEntries() + PrintableEntries() + ExtendedEntries();
    forall i | 0 <= i < 256
      ensures all[i] == Entry(i) && all[i].dec == i
    {
      if i < 32 {
        assert all[i] == ControlEntries()[i];
      } else if i < 128 {
        assert all[i] == PrintableEntries()[i - 32];
      } else {
        assert all[i] == ExtendedEntries()[i - 128];
      }
    }
  }

  // ------------------------------------------------------------ numerals

  function Power(b: nat, k: nat): nat
  {
    if k == 0 then 1 else b * Power(b, k - 1)
  }

  lemma QuotientBelow(n: nat, d: nat, p: nat)
    requires d > 0 && n < d * p
    ensures n / d < p
  {
    var q := n / d;
    assert q * d + n % d == n && n % d >= 0;
    assert (p - q) * d == p * d - q * d;
    assert (p - q) * d > 0;
  }

  /** A number below radix^k is written with at most k digits. */
  lemma {:induction false} ToRadixLength(n: nat, radix: nat, k: nat)
    requires 2 <= radix <= 36 && 1 <= k && n < Power(radix, k)
    ensures |ToRadix(n, radix)| <= k
    decreases k
  {
    assert Power(radix, 1) == radix;
    if n >= radix {
      QuotientBelow(n, radix, Power(radix, k - 1));
      ToRadixLength(n / radix, radix, k - 1);
    }
  }

  lemma {:induction false} ZerosValue(k: nat, radix: nat)
    requires 2 <= radix <= 36
    ensures RadixValue(seq(k, _ => '0'), radix) == 0
    decreases k
  {
    if k > 0 {
      assert seq(k, _ => '0')[..k - 1] == seq(k - 1, _ => '0');
      ZerosValue(k - 1, radix);
    }
  }

  /** Leading zeros do not change the value of a numeral. */
  lemma {:induction false} LeadingZeros(k: nat, s: string, radix: nat)
    requires 2 <= radix <= 36
    ensures RadixValue(seq(k, _ => '0') + s, radix) == RadixValue(s, radix)
    decreases |s|
  {
    var z := seq(k, _ => '0');
    if s == [] {
      assert z + s == z;
      ZerosValue(k, radix);
    } else {
      var t := z + s;
      assert t[..|t| - 1] == z + s[..|s| - 1];
      assert t[|t| - 1] == s[|s| - 1];
      LeadingZeros(k, s[..|s| - 1], radix);
    }
  }

  /** Upper-casing the digits does not change the value of a numeral. */
  lemma {:induction false} UpperValue(s: string, radix: nat)
    requires 2 <= radix <= 36
    ensures RadixValue(Upper(s), radix) == RadixValue(s, radix)
    decreases |s|
  {
    if s != [] {
      assert Upper(s)[..|s| - 1] == Upper(s[..|s| - 1]);
      UpperValue(s[..|s| - 1], radix);
    }
  }

  lemma PaddedValue(s: string, len: nat, radix: nat)
    requires 2 <= radix <= 36
    ensures RadixValue(PadStart(s, len, '0'), radix) == RadixValue(s, radix)
  {
    if |s| < len {
      LeadingZeros(len - |s|, s, radix);
    }
  }

  /** Octal: exactly three digits that read back as the code. */
  lemma OctNumeral(dec: nat)
    requires dec <= 255
    ensures |Oct(dec)| == 3 && RadixValue(Oct(dec), 8) == dec
  {
    assert Power(8, 3) == 512 by {
      assert Power(8, 1) == 8 && Power(8, 2) == 64;
    }
    ToRadixLength(dec, 8, 3);
    RadixValueOfToRadix(dec, 8);
    PaddedValue(ToRadix(dec, 8), 3, 8);
  }

  /** Hexadecimal: exactly two upper-case digits that read back as the code. */
  lemma HexNumeral(dec: nat)
    requires dec <= 255
    ensures |Hex(dec)| == 2 && RadixValue(Hex(dec), 16) == dec
    ensures forall i :: 0 <= i < 2 ==> !IsLower(Hex(dec)[i]) && CharDigit(Hex(dec)[i]) < 16
  {
    var u := Upper(ToRadix(dec, 16));
    assert Power(16, 2) == 256 by {
      assert Power(16, 1) == 16;
    }
    ToRadixLength(dec, 16, 2);
    RadixValueOfToRadix(dec, 16);
    UpperValue(ToRadix(dec, 16), 16);
    PaddedValue(u, 2, 16);
    var h := Hex(dec);
    forall i | 0 <= i < 2
      ensures !IsLower(h[i]) && CharDigit(h[i]) < 16
    {
      if i >= 2 - |u| {
        var j := i - (2 - |u|);
        assert h[i] == u[j] == ToUpperChar(ToRadix(dec, 16)[j]);
      }
    }
  }

  lemma ByteBound()
    ensures Power(2, 8) == 256
  {
    assert Power(2, 1) == 2 && Power(2, 2) == 4 && Power(2, 3) == 8 && Power(2, 4) == 16;
    assert Power(2, 5) == 32 && Power(2, 6) == 64 && Power(2, 7) == 128;
  }

  /** Binary: exactly eight bits that read back as the code. */
  lemma BinNumeral(dec: nat)
    requires dec <= 255
    ensures |Bin(dec)| == 8 && RadixValue(Bin(dec), 2) == dec
    ensures forall i :: 0 <= i < 8 ==> Bin(dec)[i] in "01"
  {
    var r := ToRadix(dec, 2);
    ByteBound();
    ToRadixLength(dec, 2, 8);
    RadixValueOfToRadix(dec, 2);
    PaddedValue(r, 8, 2);
    PaddedBits(r, 8);
  }

  lemma PaddedBits(r: string, len: nat)
    requires forall i :: 0 <= i < |r| ==> CharDigit(r[i]) < 2
    ensures forall i :: 0 <= i < |PadStart(r, len, '0')| ==> PadStart(r, len, '0')[i] in "01"
  {
    var b := PadStart(r, len, '0');
    forall i | 0 <= i < |b|
      ensures b[i] in "01"
    {
      if i >= |b| - |r| {
        assert b[i] == r[i - (|b| - |r|)];
      }
    }
  }

  // ------------------------------------------------------------ HTML, escapes, symbols

  /** The codes that have a named HTML entity. */
  predicate HasNamedEntity(dec: nat)
  {
    dec == 34 || dec == 38 || dec == 60 || dec == 62 || 160 <= dec <= 255
  }

  /**
   * The HTML column always ends with the numeric reference; it holds more than that exactly
   * when there is a named entity, which then comes first, followed by " / ".
   */
  lemma HtmlShape(named: Option<string>, dec: nat)
    ensures var h := Html(named, dec);
            var r := NumericReference(dec);
            && |h| >= |r| && h[|h| - |r|..] == r
            && (h == r <==> named.None?)
            && (named.Some? ==> h[..|h| - |r|] == named.value + " / ")
  {
  }

  /** The codes with a named entity: the four HTML specials and 160..255. */
  lemma NamedEntities(dec: nat)
    requires dec <= 255
    ensures 32 <= dec < 128 ==> (PrintableEntity(dec).Some? <==> HasNamedEntity(dec))
    ensures 128 <= dec ==> (Lookup(HTML_ENTITIES, 160, dec).Some? <==> HasNamedEntity(dec))
    ensures dec < 32 ==> !HasNamedEntity(dec) && ControlEntry(dec).html == NumericReference(dec)
  {
    assert |HTML_ENTITIES| == 96;
  }

  /** Only backspace, tab, line feed, form feed and carriage return have a control escape. */
  lemma ControlEscapes(dec: nat)
    requires dec <= 31
    ensures ControlEntry(dec).escape != "" <==> dec in {8, 9, 10, 12, 13}
    ensures ControlEntry(dec).escape != "" ==> |ControlEntry(dec).escape| == 2 && ControlEntry(dec).escape[0] == '\\'
  {
  }

  /** Only the double quote, the apostrophe and the backslash have a printable escape. */
  lemma PrintableEscapes(dec: nat)
    requires 32 <= dec <= 127
    ensures PrintableEntry(dec).escape != "" <==> dec in {34, 39, 92}
    ensures PrintableEntry(dec).escape != "" ==> PrintableEntry(dec).escape == ['\\', dec as char]
  {
  }

  /** Extended codes have no escape. */
  lemma ExtendedEscapes(dec: nat)
    requires 128 <= dec <= 255
    ensures ExtendedEntry(dec).escape == ""
  {
  }

  /** The space is shown as the open-box symbol; every other printable code as itself. */
  lemma PrintableSymbols(dec: nat)
    requires 32 <= dec <= 127
    ensures dec == 32 ==> PrintableEntry(dec).symbol == "␠"
    ensures dec != 32 ==> PrintableEntry(dec).symbol == [dec as char] && |PrintableEntry(dec).symbol| == 1
  {
  }

  /** Each control code is shown as its Control Pictures symbol, U+2400 plus the code. */
  lemma ControlSymbols(dec: nat)
    requires dec <= 31
    ensures ControlEntry(dec).symbol == [(0x2400 + dec) as char]
  {
    assert forall j :: 0 <= j < 32 ==> CONTROL_SYMBOLS[j] == [(0x2400 + j) as char];
  }

  /** Codes 160..255 are shown as the ISO 8859-1 character itself. */
  lemma LatinSymbols(dec: nat)
    requires 160 <= dec <= 255
    ensures ExtendedEntry(dec).symbol == [dec as char]
  {
  }
}
