/**
 * The transpiler's helpers (`pyxis-transpiler/src/utils.ts`): the import
 * bookkeeping, code snippets and how a warning prints.
 */
module TranspilerUtils {
  import opened Wrappers

  // ---------------------------------------------------------------------
  // Imports

  /** The imports a file needs: name -> whether only its type is used. */
  type Imports = map<string, bool>

  /** `addImport`: the name is imported as a value, whatever was recorded before. */
  function AddImport(imports: Imports, name: string): (r: Imports)
    ensures name in r && !r[name]
    ensures r.Keys == imports.Keys + {name}
    ensures forall k :: k in imports && k != name ==> r[k] == imports[k]
  {
    imports[name := false]
  }

  /** `addTypeImport`: a name already recorded keeps its entry; a new one is type-only. */
  function AddTypeImport(imports: Imports, name: string): (r: Imports)
    ensures name in imports ==> r == imports
    ensures name !in imports ==> r.Keys == imports.Keys + {name} && r[name]
    ensures forall k :: k in imports && k != name ==> r[k] == imports[k]
  {
    if name in imports then imports else imports[name := true]
  }

  /**
   * A value import is never downgraded to a type import, and once any import
   * of a name was asked for a value the name is a value import, in either
   * order; asking for a type import twice is asking once.
   */
  lemma ImportsOrder(imports: Imports, a: string, b: string)
    ensures !AddTypeImport(AddImport(imports, a), a)[a]
    ensures !AddImport(AddTypeImport(imports, a), a)[a]
    ensures AddTypeImport(AddTypeImport(imports, a), a) == AddTypeImport(imports, a)
    ensures a != b ==> AddImport(AddTypeImport(imports, b), a) == AddTypeImport(AddImport(imports, a), b)
  {
    if a != b {
      var l, r := AddImport(AddTypeImport(imports, b), a), AddTypeImport(AddImport(imports, a), b);
      assert l.Keys == r.Keys;
      forall k | k in l ensures l[k] == r[k] {
      }
    }
  }

  // ---------------------------------------------------------------------
  // Snippets

  /**
   * A value handed to `getCode`: an object is a snippet when its `S_CODE`
   * property is `true`; arrays and functions are not modelled.
   */
  datatype Code = Undef | Nul | BoolV(b: bool) | NumV(n: int) | StrV(s: string) | ObjV(marked: bool, source: string)

  /** `snippet`: an object marked as code. */
  function Snippet(source: string): (r: Code)
    ensures r.ObjV? && r.marked
  {
    ObjV(true, source)
  }

  /** The decimal digits of a non-negative integer, most significant first. */
  function Digits(n: nat): (s: string)
    ensures |s| > 0 && forall i :: 0 <= i < |s| ==> '0' <= s[i] <= '9'
    decreases n
  {
    var d := ['0' + (n % 10) as char];
    if n < 10 then d else Digits(n / 10) + d
  }

  /** A number as `"" + n` prints it, for integers. */
  function Decimal(n: int): (s: string)
    ensures |s| > 0 && ':' !in s
  {
    if n < 0 then "-" + Digits(-n) else Digits(n)
  }

  /** Reads back a run of decimal digits. */
  function ReadDigits(s: string): nat
    decreases |s|
  {
    if s == [] then 0 else ReadDigits(s[..|s| - 1]) * 10 + ((s[|s| - 1] as int - '0' as int) % 10)
  }

  function ReadDecimal(s: string): int {
    if |s| > 0 && s[0] == '-' then -(ReadDigits(s[1..]) as int) else ReadDigits(s)
  }

  lemma {:induction false} DigitsRoundTrip(n: nat)
    ensures ReadDigits(Digits(n)) == n
    decreases n
  {
    var s := Digits(n);
    if n >= 10 {
      DigitsRoundTrip(n / 10);
      assert s[..|s| - 1] == Digits(n / 10);
    }
  }

  /** `Decimal` loses nothing: reading it back gives the number. */
  lemma DecimalRoundTrip(n: int)
    ensures ReadDecimal(Decimal(n)) == n
  {
    if n < 0 {
      DigitsRoundTrip(-n);
      assert Decimal(n)[1..] == Digits(-n);
    } else {
      DigitsRoundTrip(n);
    }
  }

  /** `getCode`: a snippet gives its source, anything else its string conversion. */
  function GetCode(v: Code): (r: string)
    ensures v.ObjV? && v.marked ==> r == v.source
    ensures v.StrV? ==> r == v.s
    ensures v.NumV? ==> ReadDecimal(r) == v.n
    ensures v.ObjV? && !v.marked ==> r == "[object Object]"
  {
    match v
    case Undef => "undefined"
    case Nul => "null"
    case BoolV(b) => if b then "true" else "false"
    case NumV(n) => DecimalRoundTrip(n); Decimal(n)
    case StrV(s) => s
    case ObjV(marked, source) => if marked then source else "[object Object]"
  }

  /** A snippet and a string with the same text give the same code. */
  lemma SnippetCode(source: string)
    ensures GetCode(Snippet(source)) == source == GetCode(StrV(source))
  {
  }

  // ---------------------------------------------------------------------
  // Warnings

  /** `WarningCode`, whose reverse mapping gives the name printed. */
  datatype WarningCode = MultipleImports | InvalidSignature | UnsupportedSyntax

  function CodeName(c: WarningCode): (r: string)
    ensures ']' !in r
  {
    match c
    case MultipleImports => "MULTIPLE_IMPORTS"
    case InvalidSignature => "INVALID_SIGNATURE"
    case UnsupportedSyntax => "UNSUPPORTED_SYNTAX"
  }

  datatype Warning = Warning(code: WarningCode, message: string, atLine: int, atColumn: int)

  /** `warningToString`: `[CODE] message at line:column`. */
  function WarningToString(w: Warning): string {
    "[" + CodeName(w.code) + "] " + w.message + " at " + Decimal(w.atLine) + ":" + Decimal(w.atColumn)
  }

  /**
   * The printed warning determines the warning: two warnings that print the
   * same have the same code, message, line and column.
   */
  lemma WarningInjective(w1: Warning, w2: Warning)
    requires WarningToString(w1) == WarningToString(w2)
    ensures w1 == w2
  {
    var n1, n2 := CodeName(w1.code), CodeName(w2.code);
    var r1, r2 := Tail(w1), Tail(w2);
    Bracketed(w1);
    Bracketed(w2);
    CloseAt(n1, r1, n2, r2);
    CodeNameInjective(w1.code, w2.code);
    assert r1 == ("[" + n1 + "]" + r1)[|n1| + 2..] && r2 == ("[" + n2 + "]" + r2)[|n2| + 2..];
    var l1, l2 := " " + w1.message + " at " + Decimal(w1.atLine), " " + w2.message + " at " + Decimal(w2.atLine);
    var c1, c2 := Decimal(w1.atColumn), Decimal(w2.atColumn);
    assert r1 == l1 + [':'] + c1 && r2 == l2 + [':'] + c2;
    LastSplit(l1, c1, l2, c2, ':');
    DecimalRoundTrip(w1.atColumn);
    DecimalRoundTrip(w2.atColumn);
    assert l1 == (" " + w1.message + " at") + [' '] + Decimal(w1.atLine);
    assert l2 == (" " + w2.message + " at") + [' '] + Decimal(w2.atLine);
    LastSplit(" " + w1.message + " at", Decimal(w1.atLine), " " + w2.message + " at", Decimal(w2.atLine), ' ');
    DecimalRoundTrip(w1.atLine);
    DecimalRoundTrip(w2.atLine);
    assert w1.message == (" " + w1.message + " at")[1..|w1.message| + 1];
    assert w2.message == (" " + w2.message + " at")[1..|w2.message| + 1];
  }

  /** What follows the code name. */
  function Tail(w: Warning): string {
    " " + w.message + " at " + Decimal(w.atLine) + ":" + Decimal(w.atColumn)
  }

  lemma Bracketed(w: Warning)
    ensures WarningToString(w) == "[" + CodeName(w.code) + "]" + Tail(w)
  {
  }

  lemma CodeNameInjective(a: WarningCode, b: WarningCode)
    requires CodeName(a) == CodeName(b)
    ensures a == b
  {
  }

  /** Two positions holding the first `c` of a string are the same. */
  lemma FirstUnique(s: string, c: char, i: nat, j: nat)
    requires i < |s| && j < |s| && s[i] == c && s[j] == c && c !in s[..i] && c !in s[..j]
    ensures i == j
  {
  }

  /** Two positions holding the last `c` of a string are the same. */
  lemma LastUnique(s: string, c: char, i: nat, j: nat)
    requires i < |s| && j < |s| && s[i] == c && s[j] == c && c !in s[i + 1..] && c !in s[j + 1..]
    ensures i == j
  {
  }

  /** The first `]` after the opening bracket closes the code name. */
  lemma CloseAt(n1: string, t1: string, n2: string, t2: string)
    requires ']' !in n1 && ']' !in n2
    requires "[" + n1 + "]" + t1 == "[" + n2 + "]" + t2
    ensures n1 == n2
  {
    var s := "[" + n1 + "]" + t1;
    var u := s[1..];
    assert u == n1 + [']'] + t1 && u[..|n1|] == n1;
    assert u == n2 + [']'] + t2 && u[..|n2|] == n2;
    FirstUnique(u, ']', |n1|, |n2|);
  }

  /** Splitting at the last `c`, when what follows holds no `c`. */
  lemma LastSplit(a1: string, b1: string, a2: string, b2: string, c: char)
    requires c !in b1 && c !in b2
    requires a1 + [c] + b1 == a2 + [c] + b2
    ensures a1 == a2 && b1 == b2
  {
    var s := a1 + [c] + b1;
    assert s[|a1| + 1..] == b1 && s[|a1|] == c;
    assert s[|a2| + 1..] == b2 && s[|a2|] == c;
    LastUnique(s, c, |a1|, |a2|);
    assert a1 == s[..|a1|] && a2 == s[..|a2|];
  }
}
