/**
 * The notation rewriting of the calculator (utils/calculatorUtils.ts).
 *
 * `evaluateExpression` turns the display text into JavaScript source by a
 * chain of eleven global replacements before handing it to `Function`;
 * `formatExpression` turns JavaScript source back into display glyphs by a
 * mirror chain of eleven replacements. Each chain is written here as a rule
 * table, applied row by row from the first to the last, exactly as the
 * chained `.replace(/…/g, …)` calls are applied.
 */
module Calculator {
  import opened Strings

  /** One `.replace(/pat/g, rep)` call. */
  datatype Rule = Rule(pat: string, rep: string)

  /**
   * The rule tables: `ToScript` is the chain of `evaluateExpression`,
   * `ToDisplay` that of `formatExpression`, and `ToDisplayFixed` the
   * corrected `formatExpression` whose `**` row comes first.
   */
  datatype Chain = ToScript | ToDisplay | ToDisplayFixed

  /** Row `j` of the chain in `evaluateExpression` (utils/calculatorUtils.ts:4-14). */
  function ScriptRule(j: nat): Rule
  {
    match j
    case 0 => Rule("×", "*")
    case 1 => Rule("÷", "/")
    case 2 => Rule("π", "Math.PI")
    case 3 => Rule("e", "Math.E")
    case 4 => Rule("sin(", "Math.sin(")
    case 5 => Rule("cos(", "Math.cos(")
    case 6 => Rule("tan(", "Math.tan(")
    case 7 => Rule("log(", "Math.log10(")
    case 8 => Rule("ln(", "Math.log(")
    case 9 => Rule("sqrt(", "Math.sqrt(")
    case _ => Rule("^", "**")
  }

  /** Row `j` of the chain in `formatExpression` (utils/calculatorUtils.ts:24-34). */
  function DisplayRule(j: nat): Rule
  {
    match j
    case 0 => Rule("*", "×")
    case 1 => Rule("/", "÷")
    case 2 => Rule("Math.PI", "π")
    case 3 => Rule("Math.E", "e")
    case 4 => Rule("Math.sin(", "sin(")
    case 5 => Rule("Math.cos(", "cos(")
    case 6 => Rule("Math.tan(", "tan(")
    case 7 => Rule("Math.log10(", "log(")
    case 8 => Rule("Math.log(", "ln(")
    case 9 => Rule("Math.sqrt(", "sqrt(")
    case _ => Rule("**", "^")
  }

  function RuleAt(c: Chain, j: nat): (r: Rule)
    requires j < 11
    ensures r.pat != []
  {
    match c
    case ToScript => ScriptRule(j)
    case ToDisplay => DisplayRule(j)
    case ToDisplayFixed => if j == 0 then DisplayRule(10) else DisplayRule(j - 1)
  }

  /** Applies the rows `lo` up to (not including) `hi` of a table, in order. */
  function Rewrite(s: string, c: Chain, lo: nat, hi: nat): string
    requires lo <= hi <= 11
    decreases hi - lo
  {
    if lo == hi then s
    else Rewrite(ReplaceAll(s, RuleAt(c, lo).pat, RuleAt(c, lo).rep), c, lo + 1, hi)
  }

  /** The `sanitizedExpression` that `evaluateExpression` hands to `Function`. */
  function Sanitize(expression: string): string
  {
    Rewrite(expression, ToScript, 0, 11)
  }

  /** `formatExpression` as written. */
  function Format(expression: string): string
  {
    Rewrite(expression, ToDisplay, 0, 11)
  }

  /** `formatExpression` with its `**` row moved in front of the `*` row. */
  function FormatFixed(expression: string): string
  {
    Rewrite(expression, ToDisplayFixed, 0, 11)
  }

  // ---------------------------------------------------------------------------
  // Applying a table row by row

  /** `a` cannot start an occurrence of any pattern of the rows `lo`..`hi`-1. */
  predicate InertFrom(a: string, c: Chain, lo: nat, hi: nat)
    requires hi <= 11
    decreases hi - lo
  {
    lo >= hi || (MatchFree(a, RuleAt(c, lo).pat) && InertFrom(a, c, lo + 1, hi))
  }

  /**
   * Rewriting `a` with the rows `lo`..`hi`-1 never lets an occurrence run past
   * the end of `a`, at any row: `a` may then be rewritten on its own.
   */
  predicate CleanFrom(a: string, c: Chain, lo: nat, hi: nat)
    requires hi <= 11
    decreases hi - lo
  {
    lo >= hi ||
    (SplitSafe(a, RuleAt(c, lo).pat) &&
     CleanFrom(ReplaceAll(a, RuleAt(c, lo).pat, RuleAt(c, lo).rep), c, lo + 1, hi))
  }

  lemma {:induction false} RewriteSplit(s: string, c: Chain, lo: nat, mid: nat, hi: nat)
    requires lo <= mid <= hi <= 11
    ensures Rewrite(s, c, lo, hi) == Rewrite(Rewrite(s, c, lo, mid), c, mid, hi)
    decreases mid - lo
  {
    if lo < mid {
      RewriteSplit(ReplaceAll(s, RuleAt(c, lo).pat, RuleAt(c, lo).rep), c, lo + 1, mid, hi);
    }
  }

  /** A character that no replacement of the rows holds cannot appear. */
  lemma {:induction false} AbsentStays(s: string, c: Chain, x: char, lo: nat, hi: nat)
    requires lo <= hi <= 11 && x !in s
    requires forall j :: lo <= j < hi ==> x !in RuleAt(c, j).rep
    ensures x !in Rewrite(s, c, lo, hi)
    decreases hi - lo
  {
    if lo < hi {
      AbsentStays(ReplaceAll(s, RuleAt(c, lo).pat, RuleAt(c, lo).rep), c, x, lo + 1, hi);
    }
  }

  /** Row `i` deletes every `x` and no later row up to `hi` brings one back. */
  lemma CharRemoved(s: string, c: Chain, x: char, i: nat, hi: nat)
    requires i < hi <= 11
    requires RuleAt(c, i).pat == [x] && x !in RuleAt(c, i).rep
    requires forall j :: i < j < hi ==> x !in RuleAt(c, j).rep
    ensures x !in Rewrite(s, c, 0, hi)
  {
    RewriteSplit(s, c, 0, i, hi);
    var t := Rewrite(s, c, 0, i);
    ReplaceAllRemovesChar(t, x, RuleAt(c, i).rep);
    AbsentStays(ReplaceAll(t, [x], RuleAt(c, i).rep), c, x, i + 1, hi);
  }

  /** A character that neither the patterns nor the replacements of the rows hold keeps its count. */
  lemma {:induction false} CountStays(s: string, c: Chain, x: char, lo: nat, hi: nat)
    requires lo <= hi <= 11
    requires forall j :: lo <= j < hi ==> x !in RuleAt(c, j).pat && x !in RuleAt(c, j).rep
    ensures Count(x, Rewrite(s, c, lo, hi)) == Count(x, s)
    decreases hi - lo
  {
    if lo < hi {
      CountReplaceOther(x, s, RuleAt(c, lo).pat, RuleAt(c, lo).rep);
      CountStays(ReplaceAll(s, RuleAt(c, lo).pat, RuleAt(c, lo).rep), c, x, lo + 1, hi);
    }
  }

  /** How a text avoids one pattern: it lacks the pattern's first character, or holds it once and then differs. */
  datatype Witness = Absent | OneHit(at: nat, offset: nat)

  predicate Avoids(a: string, p: string, w: Witness)
  {
    p != [] &&
    match w
    case Absent => p[0] !in a
    case OneHit(h, m) =>
      h + m < |a| && m < |p| && a[h + m] != p[m] &&
      forall k :: 0 <= k < |a| && k != h ==> a[k] != p[0]
  }

  /** `a` is inert for the rows `lo`..`hi`-1 when it avoids each of their patterns in the way `w` says. */
  lemma {:induction false} InertRows(a: string, c: Chain, lo: nat, hi: nat, w: Witness)
    requires lo <= hi <= 11
    requires forall j :: lo <= j < hi ==> Avoids(a, RuleAt(c, j).pat, w)
    ensures InertFrom(a, c, lo, hi)
    decreases hi - lo
  {
    if lo < hi {
      match w {
        case OneHit(h, m) => MatchFreeOneHit(a, RuleAt(c, lo).pat, h, m);
        case Absent => MatchFreeByFirstChar(a, RuleAt(c, lo).pat);
      }
      InertRows(a, c, lo + 1, hi, w);
    }
  }

  lemma {:induction false} InertJoin(a: string, c: Chain, lo: nat, mid: nat, hi: nat)
    requires lo <= mid <= hi <= 11 && InertFrom(a, c, lo, mid) && InertFrom(a, c, mid, hi)
    ensures InertFrom(a, c, lo, hi)
    decreases mid - lo
  {
    if lo < mid { InertJoin(a, c, lo + 1, mid, hi); }
  }

  /** Digits, `.`, `+`, `-` and parentheses: the characters no pattern of either chain starts with. */
  predicate PlainChar(ch: char)
  {
    ('0' <= ch <= '9') || ch == '.' || ch == '+' || ch == '-' || ch == '(' || ch == ')'
  }

  /** Text made of plain characters is never rewritten. */
  lemma {:induction false} OutsideInert(a: string, c: Chain, lo: nat, hi: nat)
    requires lo <= hi <= 11
    requires forall k :: 0 <= k < |a| ==> PlainChar(a[k])
    requires forall j :: lo <= j < hi ==> !PlainChar(RuleAt(c, j).pat[0])
    ensures InertFrom(a, c, lo, hi)
    decreases hi - lo
  {
    if lo < hi {
      MatchFreeByFirstChar(a, RuleAt(c, lo).pat);
      OutsideInert(a, c, lo + 1, hi);
    }
  }

  lemma {:induction false} InertClean(a: string, c: Chain, lo: nat, hi: nat)
    requires lo <= hi <= 11 && InertFrom(a, c, lo, hi)
    ensures CleanFrom(a, c, lo, hi) && Rewrite(a, c, lo, hi) == a
    decreases hi - lo
  {
    if lo < hi {
      ReplaceAllMatchFree(a, RuleAt(c, lo).pat, RuleAt(c, lo).rep);
      InertClean(a, c, lo + 1, hi);
    }
  }

  /**
   * A text `d` that no row touches before row `s`, which is exactly the row
   * `d` → `t`, after which no row touches `t`.
   */
  lemma {:induction false} TwoPhase(d: string, t: string, c: Chain, lo: nat, s: nat, hi: nat)
    requires lo <= s < hi <= 11
    requires InertFrom(d, c, lo, s) && RuleAt(c, s) == Rule(d, t) && InertFrom(t, c, s + 1, hi)
    ensures CleanFrom(d, c, lo, hi) && Rewrite(d, c, lo, hi) == t
    decreases s - lo
  {
    if lo < s {
      ReplaceAllMatchFree(d, RuleAt(c, lo).pat, RuleAt(c, lo).rep);
      TwoPhase(d, t, c, lo + 1, s, hi);
    } else {
      ReplaceAllItself(d, t);
      InertClean(t, c, s + 1, hi);
    }
  }

  /** Rewriting `a + b` is rewriting each part, when `a` is clean for the rows. */
  lemma {:induction false} RewriteConcat(a: string, b: string, c: Chain, lo: nat, hi: nat)
    requires lo <= hi <= 11 && CleanFrom(a, c, lo, hi)
    ensures Rewrite(a + b, c, lo, hi) == Rewrite(a, c, lo, hi) + Rewrite(b, c, lo, hi)
    decreases hi - lo
  {
    if lo < hi {
      var r := RuleAt(c, lo);
      ReplaceAllConcat(a, b, r.pat, r.rep);
      RewriteConcat(ReplaceAll(a, r.pat, r.rep), ReplaceAll(b, r.pat, r.rep), c, lo + 1, hi);
    }
  }

  lemma {:induction false} RewriteEmpty(c: Chain, lo: nat, hi: nat)
    requires lo <= hi <= 11
    ensures Rewrite("", c, lo, hi) == ""
    decreases hi - lo
  {
    if lo < hi { RewriteEmpty(c, lo + 1, hi); }
  }

  /** Cleanliness for more rows implies cleanliness for fewer. */
  lemma {:induction false} CleanPrefix(a: string, c: Chain, lo: nat, mid: nat, hi: nat)
    requires lo <= mid <= hi <= 11 && CleanFrom(a, c, lo, hi)
    ensures CleanFrom(a, c, lo, mid)
    decreases hi - lo
  {
    if lo < mid {
      CleanPrefix(ReplaceAll(a, RuleAt(c, lo).pat, RuleAt(c, lo).rep), c, lo + 1, mid, hi);
    }
  }

  /** The rows `1`..`10` of the corrected chain are the rows `0`..`9` of the chain as written. */
  lemma {:induction false} FixedShift(a: string, lo: nat, hi: nat)
    requires lo <= hi <= 10
    ensures Rewrite(a, ToDisplayFixed, lo + 1, hi + 1) == Rewrite(a, ToDisplay, lo, hi)
    ensures CleanFrom(a, ToDisplay, lo, hi) ==> CleanFrom(a, ToDisplayFixed, lo + 1, hi + 1)
    decreases hi - lo
  {
    if lo < hi {
      assert RuleAt(ToDisplayFixed, lo + 1) == RuleAt(ToDisplay, lo);
      FixedShift(ReplaceAll(a, RuleAt(ToDisplay, lo).pat, RuleAt(ToDisplay, lo).rep), lo + 1, hi);
    }
  }


  // ---------------------------------------------------------------------------
  // Each key of the calculator through each chain

  /**
   * A key of the calculator that writes text: the value it appends to the
   * display (data/calculatorData.ts). A function key writes the bare name,
   * so `sin(` is the `sin` key followed by the `(` key. No key writes `ln`,
   * but both chains have a row for `ln(`, so the model has that name too.
   */
  datatype Key =
    | Digit(d: char) | Point | Plus | Minus | Open | Close
    | Times | Divide | Power | Pi | Euler
    | Sin | Cos | Tan | Log | Ln | Sqrt

  predicate ValidKey(k: Key)
  {
    k.Digit? ==> '0' <= k.d <= '9'
  }

  predicate ValidKeys(ks: seq<Key>)
  {
    forall i :: 0 <= i < |ks| ==> ValidKey(ks[i])
  }

  predicate FunctionKey(k: Key)
  {
    k == Sin || k == Cos || k == Tan || k == Log || k == Ln || k == Sqrt
  }

  /** The display text of a key. */
  function KeyText(k: Key): string
  {
    match k
    case Digit(d) => [d]
    case Point => "."
    case Plus => "+"
    case Minus => "-"
    case Open => "("
    case Close => ")"
    case Times => "×"
    case Divide => "÷"
    case Power => "^"
    case Pi => "π"
    case Euler => "e"
    case Sin => "sin"
    case Cos => "cos"
    case Tan => "tan"
    case Log => "log"
    case Ln => "ln"
    case Sqrt => "sqrt"
  }

  /** The display text of a function key followed by the `(` key. */
  function CallText(k: Key): (t: string)
    requires FunctionKey(k)
    ensures t == KeyText(k) + KeyText(Open)
  {
    match k
    case Sin => "sin("
    case Cos => "cos("
    case Tan => "tan("
    case Log => "log("
    case Ln => "ln("
    case Sqrt => "sqrt("
  }

  /** The JavaScript text of a function key followed by the `(` key. */
  function CallScript(k: Key): (t: string)
    requires FunctionKey(k)
    ensures t != [] && t[0] == 'M' && '*' !in t
  {
    match k
    case Sin => "Math.sin("
    case Cos => "Math.cos("
    case Tan => "Math.tan("
    case Log => "Math.log10("
    case Ln => "Math.log("
    case Sqrt => "Math.sqrt("
  }

  /**
   * The JavaScript text a key stands for on its own; a function name that
   * no `(` follows is left as it is.
   */
  function ScriptText(k: Key): string
  {
    match k
    case Times => "*"
    case Divide => "/"
    case Power => "**"
    case Pi => "Math.PI"
    case Euler => "Math.E"
    case _ => KeyText(k)
  }

  /** What `formatExpression` as written shows for the JavaScript text of a key. */
  function ShownText(k: Key): string
  {
    if k == Power then "××" else KeyText(k)
  }

  /** The JavaScript text of a key after the `**` row of the corrected chain. */
  function CaretText(k: Key): string
  {
    if k == Power then "^" else ScriptText(k)
  }

  /** The keys start with a function key and the `(` key. */
  predicate StartsWithCall(ks: seq<Key>)
  {
    |ks| >= 2 && FunctionKey(ks[0]) && ks[1] == Open
  }

  function Display(ks: seq<Key>): string
  {
    if ks == [] then "" else KeyText(ks[0]) + Display(ks[1..])
  }

  /** The JavaScript text of keys: a function key and the `(` key after it read together as a call. */
  function Script(ks: seq<Key>): string
  {
    if ks == [] then ""
    else if StartsWithCall(ks) then CallScript(ks[0]) + Script(ks[2..])
    else ScriptText(ks[0]) + Script(ks[1..])
  }

  function Shown(ks: seq<Key>): string
  {
    if ks == [] then "" else ShownText(ks[0]) + Shown(ks[1..])
  }

  function CaretScript(ks: seq<Key>): string
  {
    if ks == [] then ""
    else if StartsWithCall(ks) then CallScript(ks[0]) + CaretScript(ks[2..])
    else CaretText(ks[0]) + CaretScript(ks[1..])
  }

  /** The keys whose text is the same plain character in both notations. */
  predicate PlainKey(k: Key)
  {
    ValidKey(k) && (k.Digit? || k == Point || k == Plus || k == Minus || k == Open || k == Close)
  }

  lemma PlainKeyInert(k: Key, c: Chain)
    requires PlainKey(k)
    ensures KeyText(k) == ScriptText(k) && |KeyText(k)| == 1 && PlainChar(KeyText(k)[0])
    ensures CleanFrom(KeyText(k), c, 0, 11) && Rewrite(KeyText(k), c, 0, 11) == KeyText(k)
  {
    OutsideInert(KeyText(k), c, 0, 11);
    InertClean(KeyText(k), c, 0, 11);
  }

  lemma TimesToScript()
    ensures CleanFrom("×", ToScript, 0, 11) && Rewrite("×", ToScript, 0, 11) == "*"
  {
    TimesScriptBefore();
    TimesScriptAfterRows1();
    TimesScriptAfterRows6();
    InertJoin("*", ToScript, 1, 6, 11);
    TwoPhase("×", "*", ToScript, 0, 0, 11);
  }

  lemma TimesToDisplay()
    ensures CleanFrom("*", ToDisplay, 0, 11) && Rewrite("*", ToDisplay, 0, 11) == "×"
  {
    TimesDisplayBefore();
    TimesDisplayAfterRows1();
    TimesDisplayAfterRows6();
    InertJoin("×", ToDisplay, 1, 6, 11);
    TwoPhase("*", "×", ToDisplay, 0, 0, 11);
  }

  lemma TimesScriptBefore()
    ensures InertFrom("×", ToScript, 0, 0)
  {
    InertRows("×", ToScript, 0, 0, Absent);
  }

  lemma TimesScriptAfterRows1()
    ensures InertFrom("*", ToScript, 1, 6)
  {
    InertRows("*", ToScript, 1, 6, Absent);
  }

  lemma TimesScriptAfterRows6()
    ensures InertFrom("*", ToScript, 6, 11)
  {
    InertRows("*", ToScript, 6, 11, Absent);
  }

  lemma TimesDisplayBefore()
    ensures InertFrom("*", ToDisplay, 0, 0)
  {
    InertRows("*", ToDisplay, 0, 0, Absent);
  }

  lemma TimesDisplayAfterRows1()
    ensures InertFrom("×", ToDisplay, 1, 6)
  {
    InertRows("×", ToDisplay, 1, 6, Absent);
  }

  lemma TimesDisplayAfterRows6()
    ensures InertFrom("×", ToDisplay, 6, 11)
  {
    InertRows("×", ToDisplay, 6, 11, Absent);
  }

  lemma DivideToScript()
    ensures CleanFrom("÷", ToScript, 0, 11) && Rewrite("÷", ToScript, 0, 11) == "/"
  {
    DivideScriptBefore();
    DivideScriptAfterRows2();
    DivideScriptAfterRows7();
    InertJoin("/", ToScript, 2, 7, 11);
    TwoPhase("÷", "/", ToScript, 0, 1, 11);
  }

  lemma DivideToDisplay()
    ensures CleanFrom("/", ToDisplay, 0, 11) && Rewrite("/", ToDisplay, 0, 11) == "÷"
  {
    DivideDisplayBefore();
    DivideDisplayAfterRows2();
    DivideDisplayAfterRows7();
    InertJoin("÷", ToDisplay, 2, 7, 11);
    TwoPhase("/", "÷", ToDisplay, 0, 1, 11);
  }

  lemma DivideScriptBefore()
    ensures InertFrom("÷", ToScript, 0, 1)
  {
    InertRows("÷", ToScript, 0, 1, Absent);
  }

  lemma DivideScriptAfterRows2()
    ensures InertFrom("/", ToScript, 2, 7)
  {
    InertRows("/", ToScript, 2, 7, Absent);
  }

  lemma DivideScriptAfterRows7()
    ensures InertFrom("/", ToScript, 7, 11)
  {
    InertRows("/", ToScript, 7, 11, Absent);
  }

  lemma DivideDisplayBefore()
    ensures InertFrom("/", ToDisplay, 0, 1)
  {
    InertRows("/", ToDisplay, 0, 1, Absent);
  }

  lemma DivideDisplayAfterRows2()
    ensures InertFrom("÷", ToDisplay, 2, 7)
  {
    InertRows("÷", ToDisplay, 2, 7, Absent);
  }

  lemma DivideDisplayAfterRows7()
    ensures InertFrom("÷", ToDisplay, 7, 11)
  {
    InertRows("÷", ToDisplay, 7, 11, Absent);
  }

  lemma PiToScript()
    ensures CleanFrom("π", ToScript, 0, 11) && Rewrite("π", ToScript, 0, 11) == "Math.PI"
  {
    PiScriptBefore();
    PiScriptAfterRows3();
    PiScriptAfterRows6();
    PiScriptAfterRows7();
    InertJoin("Math.PI", ToScript, 6, 7, 11);
    InertJoin("Math.PI", ToScript, 3, 6, 11);
    TwoPhase("π", "Math.PI", ToScript, 0, 2, 11);
  }

  lemma PiToDisplay()
    ensures CleanFrom("Math.PI", ToDisplay, 0, 11) && Rewrite("Math.PI", ToDisplay, 0, 11) == "π"
  {
    PiDisplayBefore();
    PiDisplayAfterRows3();
    PiDisplayAfterRows8();
    InertJoin("π", ToDisplay, 3, 8, 11);
    TwoPhase("Math.PI", "π", ToDisplay, 0, 2, 11);
  }

  lemma PiScriptBefore()
    ensures InertFrom("π", ToScript, 0, 2)
  {
    InertRows("π", ToScript, 0, 2, Absent);
  }

  lemma PiScriptAfterRows3()
    ensures InertFrom("Math.PI", ToScript, 3, 6)
  {
    InertRows("Math.PI", ToScript, 3, 6, Absent);
  }

  lemma PiScriptAfterRows6()
    ensures InertFrom("Math.PI", ToScript, 6, 7)
  {
    InertRows("Math.PI", ToScript, 6, 7, OneHit(2, 1));
  }

  lemma PiScriptAfterRows7()
    ensures InertFrom("Math.PI", ToScript, 7, 11)
  {
    InertRows("Math.PI", ToScript, 7, 11, Absent);
  }

  lemma PiDisplayBefore()
    ensures InertFrom("Math.PI", ToDisplay, 0, 2)
  {
    InertRows("Math.PI", ToDisplay, 0, 2, Absent);
  }

  lemma PiDisplayAfterRows3()
    ensures InertFrom("π", ToDisplay, 3, 8)
  {
    InertRows("π", ToDisplay, 3, 8, Absent);
  }

  lemma PiDisplayAfterRows8()
    ensures InertFrom("π", ToDisplay, 8, 11)
  {
    InertRows("π", ToDisplay, 8, 11, Absent);
  }

  lemma EulerToScript()
    ensures CleanFrom("e", ToScript, 0, 11) && Rewrite("e", ToScript, 0, 11) == "Math.E"
  {
    EulerScriptBefore();
    EulerScriptAfterRows4();
    EulerScriptAfterRows6();
    EulerScriptAfterRows7();
    InertJoin("Math.E", ToScript, 6, 7, 11);
    InertJoin("Math.E", ToScript, 4, 6, 11);
    TwoPhase("e", "Math.E", ToScript, 0, 3, 11);
  }

  lemma EulerToDisplay()
    ensures CleanFrom("Math.E", ToDisplay, 0, 11) && Rewrite("Math.E", ToDisplay, 0, 11) == "e"
  {
    EulerDisplayBeforeRows0();
    EulerDisplayBeforeRows2();
    InertJoin("Math.E", ToDisplay, 0, 2, 3);
    EulerDisplayAfterRows4();
    EulerDisplayAfterRows9();
    InertJoin("e", ToDisplay, 4, 9, 11);
    TwoPhase("Math.E", "e", ToDisplay, 0, 3, 11);
  }

  lemma EulerScriptBefore()
    ensures InertFrom("e", ToScript, 0, 3)
  {
    InertRows("e", ToScript, 0, 3, Absent);
  }

  lemma EulerScriptAfterRows4()
    ensures InertFrom("Math.E", ToScript, 4, 6)
  {
    InertRows("Math.E", ToScript, 4, 6, Absent);
  }

  lemma EulerScriptAfterRows6()
    ensures InertFrom("Math.E", ToScript, 6, 7)
  {
    InertRows("Math.E", ToScript, 6, 7, OneHit(2, 1));
  }

  lemma EulerScriptAfterRows7()
    ensures InertFrom("Math.E", ToScript, 7, 11)
  {
    InertRows("Math.E", ToScript, 7, 11, Absent);
  }

  lemma EulerDisplayBeforeRows0()
    ensures InertFrom("Math.E", ToDisplay, 0, 2)
  {
    InertRows("Math.E", ToDisplay, 0, 2, Absent);
  }

  lemma EulerDisplayBeforeRows2()
    ensures InertFrom("Math.E", ToDisplay, 2, 3)
  {
    InertRows("Math.E", ToDisplay, 2, 3, OneHit(0, 5));
  }

  lemma EulerDisplayAfterRows4()
    ensures InertFrom("e", ToDisplay, 4, 9)
  {
    InertRows("e", ToDisplay, 4, 9, Absent);
  }

  lemma EulerDisplayAfterRows9()
    ensures InertFrom("e", ToDisplay, 9, 11)
  {
    InertRows("e", ToDisplay, 9, 11, Absent);
  }

  lemma SinToScript()
    ensures CleanFrom("sin(", ToScript, 0, 11) && Rewrite("sin(", ToScript, 0, 11) == "Math.sin("
  {
    SinScriptBefore();
    SinScriptAfterRows5();
    SinCosScriptAfterRows6("Math.sin(");
    SinScriptAfterRows7();
    SinScriptAfterRows9();
    SinScriptAfterRows10();
    InertJoin("Math.sin(", ToScript, 9, 10, 11);
    InertJoin("Math.sin(", ToScript, 7, 9, 11);
    InertJoin("Math.sin(", ToScript, 6, 7, 11);
    InertJoin("Math.sin(", ToScript, 5, 6, 11);
    TwoPhase("sin(", "Math.sin(", ToScript, 0, 4, 11);
  }

  lemma SinToDisplay()
    ensures CleanFrom("Math.sin(", ToDisplay, 0, 11) && Rewrite("Math.sin(", ToDisplay, 0, 11) == "sin("
  {
    SinDisplayBeforeRows0();
    SinDisplayBeforeRows2();
    InertJoin("Math.sin(", ToDisplay, 0, 2, 4);
    SinDisplayAfterRows5();
    SinDisplayAfterRows10();
    InertJoin("sin(", ToDisplay, 5, 10, 11);
    TwoPhase("Math.sin(", "sin(", ToDisplay, 0, 4, 11);
  }

  lemma SinScriptBefore()
    ensures InertFrom("sin(", ToScript, 0, 4)
  {
    InertRows("sin(", ToScript, 0, 4, Absent);
  }

  lemma SinScriptAfterRows5()
    ensures InertFrom("Math.sin(", ToScript, 5, 6)
  {
    InertRows("Math.sin(", ToScript, 5, 6, Absent);
  }

  /** `Math.sin(` and `Math.cos(` meet the `tan(` row only with the `t` of `Math`. */
  lemma SinCosScriptAfterRows6(t: string)
    requires t == "Math.sin(" || t == "Math.cos("
    ensures InertFrom(t, ToScript, 6, 7)
  {
    InertRows(t, ToScript, 6, 7, OneHit(2, 1));
  }

  lemma SinScriptAfterRows7()
    ensures InertFrom("Math.sin(", ToScript, 7, 9)
  {
    InertRows("Math.sin(", ToScript, 7, 9, Absent);
  }

  lemma SinScriptAfterRows9()
    ensures InertFrom("Math.sin(", ToScript, 9, 10)
  {
    InertRows("Math.sin(", ToScript, 9, 10, OneHit(5, 1));
  }

  lemma SinScriptAfterRows10()
    ensures InertFrom("Math.sin(", ToScript, 10, 11)
  {
    InertRows("Math.sin(", ToScript, 10, 11, Absent);
  }

  lemma SinDisplayBeforeRows0()
    ensures InertFrom("Math.sin(", ToDisplay, 0, 2)
  {
    InertRows("Math.sin(", ToDisplay, 0, 2, Absent);
  }

  lemma SinDisplayBeforeRows2()
    ensures InertFrom("Math.sin(", ToDisplay, 2, 4)
  {
    InertRows("Math.sin(", ToDisplay, 2, 4, OneHit(0, 5));
  }

  lemma SinDisplayAfterRows5()
    ensures InertFrom("sin(", ToDisplay, 5, 10)
  {
    InertRows("sin(", ToDisplay, 5, 10, Absent);
  }

  lemma SinDisplayAfterRows10()
    ensures InertFrom("sin(", ToDisplay, 10, 11)
  {
    InertRows("sin(", ToDisplay, 10, 11, Absent);
  }

  lemma CosToScript()
    ensures CleanFrom("cos(", ToScript, 0, 11) && Rewrite("cos(", ToScript, 0, 11) == "Math.cos("
  {
    CosScriptBeforeRows0();
    CosScriptBeforeRows4();
    InertJoin("cos(", ToScript, 0, 4, 5);
    SinCosScriptAfterRows6("Math.cos(");
    CosScriptAfterRows7();
    CosScriptAfterRows9();
    CosScriptAfterRows10();
    InertJoin("Math.cos(", ToScript, 9, 10, 11);
    InertJoin("Math.cos(", ToScript, 7, 9, 11);
    InertJoin("Math.cos(", ToScript, 6, 7, 11);
    TwoPhase("cos(", "Math.cos(", ToScript, 0, 5, 11);
  }

  lemma CosToDisplay()
    ensures CleanFrom("Math.cos(", ToDisplay, 0, 11) && Rewrite("Math.cos(", ToDisplay, 0, 11) == "cos("
  {
    CosDisplayBeforeRows0();
    CosDisplayBeforeRows2();
    InertJoin("Math.cos(", ToDisplay, 0, 2, 5);
    CosDisplayAfter();
    TwoPhase("Math.cos(", "cos(", ToDisplay, 0, 5, 11);
  }

  lemma CosScriptBeforeRows0()
    ensures InertFrom("cos(", ToScript, 0, 4)
  {
    InertRows("cos(", ToScript, 0, 4, Absent);
  }

  lemma CosScriptBeforeRows4()
    ensures InertFrom("cos(", ToScript, 4, 5)
  {
    InertRows("cos(", ToScript, 4, 5, OneHit(2, 1));
  }

  lemma CosScriptAfterRows7()
    ensures InertFrom("Math.cos(", ToScript, 7, 9)
  {
    InertRows("Math.cos(", ToScript, 7, 9, Absent);
  }

  lemma CosScriptAfterRows9()
    ensures InertFrom("Math.cos(", ToScript, 9, 10)
  {
    InertRows("Math.cos(", ToScript, 9, 10, OneHit(7, 1));
  }

  lemma CosScriptAfterRows10()
    ensures InertFrom("Math.cos(", ToScript, 10, 11)
  {
    InertRows("Math.cos(", ToScript, 10, 11, Absent);
  }

  lemma CosDisplayBeforeRows0()
    ensures InertFrom("Math.cos(", ToDisplay, 0, 2)
  {
    InertRows("Math.cos(", ToDisplay, 0, 2, Absent);
  }

  lemma CosDisplayBeforeRows2()
    ensures InertFrom("Math.cos(", ToDisplay, 2, 5)
  {
    InertRows("Math.cos(", ToDisplay, 2, 5, OneHit(0, 5));
  }

  lemma CosDisplayAfter()
    ensures InertFrom("cos(", ToDisplay, 6, 11)
  {
    InertRows("cos(", ToDisplay, 6, 11, Absent);
  }

  lemma TanToScript()
    ensures CleanFrom("tan(", ToScript, 0, 11) && Rewrite("tan(", ToScript, 0, 11) == "Math.tan("
  {
    TanScriptBeforeRows0();
    TanScriptBeforeRows5();
    InertJoin("tan(", ToScript, 0, 5, 6);
    TanScriptAfter();
    TwoPhase("tan(", "Math.tan(", ToScript, 0, 6, 11);
  }

  lemma TanToDisplay()
    ensures CleanFrom("Math.tan(", ToDisplay, 0, 11) && Rewrite("Math.tan(", ToDisplay, 0, 11) == "tan("
  {
    TanDisplayBeforeRows0();
    TanDisplayBeforeRows2();
    InertJoin("Math.tan(", ToDisplay, 0, 2, 6);
    TanDisplayAfter();
    TwoPhase("Math.tan(", "tan(", ToDisplay, 0, 6, 11);
  }

  lemma TanScriptBeforeRows0()
    ensures InertFrom("tan(", ToScript, 0, 5)
  {
    InertRows("tan(", ToScript, 0, 5, Absent);
  }

  lemma TanScriptBeforeRows5()
    ensures InertFrom("tan(", ToScript, 5, 6)
  {
    InertRows("tan(", ToScript, 5, 6, Absent);
  }

  lemma TanScriptAfter()
    ensures InertFrom("Math.tan(", ToScript, 7, 11)
  {
    InertRows("Math.tan(", ToScript, 7, 11, Absent);
  }

  lemma TanDisplayBeforeRows0()
    ensures InertFrom("Math.tan(", ToDisplay, 0, 2)
  {
    InertRows("Math.tan(", ToDisplay, 0, 2, Absent);
  }

  lemma TanDisplayBeforeRows2()
    ensures InertFrom("Math.tan(", ToDisplay, 2, 6)
  {
    InertRows("Math.tan(", ToDisplay, 2, 6, OneHit(0, 5));
  }

  lemma TanDisplayAfter()
    ensures InertFrom("tan(", ToDisplay, 7, 11)
  {
    InertRows("tan(", ToDisplay, 7, 11, Absent);
  }

  lemma LogToScript()
    ensures CleanFrom("log(", ToScript, 0, 11) && Rewrite("log(", ToScript, 0, 11) == "Math.log10("
  {
    LogScriptBeforeRows0();
    LogScriptBeforeRows5();
    InertJoin("log(", ToScript, 0, 5, 7);
    LogScriptAfterRows8();
    LogScriptAfterRows9();
    InertJoin("Math.log10(", ToScript, 8, 9, 11);
    TwoPhase("log(", "Math.log10(", ToScript, 0, 7, 11);
  }

  lemma LogToDisplay()
    ensures CleanFrom("Math.log10(", ToDisplay, 0, 11) && Rewrite("Math.log10(", ToDisplay, 0, 11) == "log("
  {
    LogDisplayBeforeRows0();
    LogLnDisplayBeforeRows2("Math.log10(");
    InertJoin("Math.log10(", ToDisplay, 0, 2, 7);
    LogDisplayAfter();
    TwoPhase("Math.log10(", "log(", ToDisplay, 0, 7, 11);
  }

  lemma LogScriptBeforeRows0()
    ensures InertFrom("log(", ToScript, 0, 5)
  {
    InertRows("log(", ToScript, 0, 5, Absent);
  }

  lemma LogScriptBeforeRows5()
    ensures InertFrom("log(", ToScript, 5, 7)
  {
    InertRows("log(", ToScript, 5, 7, Absent);
  }

  lemma LogScriptAfterRows8()
    ensures InertFrom("Math.log10(", ToScript, 8, 9)
  {
    InertRows("Math.log10(", ToScript, 8, 9, OneHit(5, 1));
  }

  lemma LogScriptAfterRows9()
    ensures InertFrom("Math.log10(", ToScript, 9, 11)
  {
    InertRows("Math.log10(", ToScript, 9, 11, Absent);
  }

  lemma LogDisplayBeforeRows0()
    ensures InertFrom("Math.log10(", ToDisplay, 0, 2)
  {
    InertRows("Math.log10(", ToDisplay, 0, 2, Absent);
  }

  /** `Math.log10(` and `Math.log(` part from the patterns of rows 2 to 6 at the `l` after `Math.`. */
  lemma LogLnDisplayBeforeRows2(t: string)
    requires t == "Math.log10(" || t == "Math.log("
    ensures InertFrom(t, ToDisplay, 2, 7)
  {
    InertRows(t, ToDisplay, 2, 7, OneHit(0, 5));
  }

  lemma LogDisplayAfter()
    ensures InertFrom("log(", ToDisplay, 8, 11)
  {
    InertRows("log(", ToDisplay, 8, 11, Absent);
  }

  lemma LnToScript()
    ensures CleanFrom("ln(", ToScript, 0, 11) && Rewrite("ln(", ToScript, 0, 11) == "Math.log("
  {
    LnScriptBeforeRows0();
    LnScriptBeforeRows5();
    LnScriptBeforeRows7();
    InertJoin("ln(", ToScript, 5, 7, 8);
    InertJoin("ln(", ToScript, 0, 5, 8);
    LnScriptAfter();
    TwoPhase("ln(", "Math.log(", ToScript, 0, 8, 11);
  }

  lemma LnToDisplay()
    ensures CleanFrom("Math.log(", ToDisplay, 0, 11) && Rewrite("Math.log(", ToDisplay, 0, 11) == "ln("
  {
    LnDisplayBeforeRows0();
    LogLnDisplayBeforeRows2("Math.log(");
    LnDisplayBeforeRows7();
    InertJoin("Math.log(", ToDisplay, 2, 7, 8);
    InertJoin("Math.log(", ToDisplay, 0, 2, 8);
    LnDisplayAfter();
    TwoPhase("Math.log(", "ln(", ToDisplay, 0, 8, 11);
  }

  lemma LnScriptBeforeRows0()
    ensures InertFrom("ln(", ToScript, 0, 5)
  {
    InertRows("ln(", ToScript, 0, 5, Absent);
  }

  lemma LnScriptBeforeRows5()
    ensures InertFrom("ln(", ToScript, 5, 7)
  {
    InertRows("ln(", ToScript, 5, 7, Absent);
  }

  lemma LnScriptBeforeRows7()
    ensures InertFrom("ln(", ToScript, 7, 8)
  {
    InertRows("ln(", ToScript, 7, 8, OneHit(0, 1));
  }

  lemma LnScriptAfter()
    ensures InertFrom("Math.log(", ToScript, 9, 11)
  {
    InertRows("Math.log(", ToScript, 9, 11, Absent);
  }

  lemma LnDisplayBeforeRows0()
    ensures InertFrom("Math.log(", ToDisplay, 0, 2)
  {
    InertRows("Math.log(", ToDisplay, 0, 2, Absent);
  }

  lemma LnDisplayBeforeRows7()
    ensures InertFrom("Math.log(", ToDisplay, 7, 8)
  {
    InertRows("Math.log(", ToDisplay, 7, 8, OneHit(0, 8));
  }

  lemma LnDisplayAfter()
    ensures InertFrom("ln(", ToDisplay, 9, 11)
  {
    InertRows("ln(", ToDisplay, 9, 11, Absent);
  }

  lemma SqrtToScript()
    ensures CleanFrom("sqrt(", ToScript, 0, 11) && Rewrite("sqrt(", ToScript, 0, 11) == "Math.sqrt("
  {
    SqrtScriptBeforeRows0();
    SqrtScriptBeforeRows4();
    SqrtScriptBeforeRows5();
    SqrtScriptBeforeRows6();
    SqrtScriptBeforeRows7();
    InertJoin("sqrt(", ToScript, 6, 7, 9);
    InertJoin("sqrt(", ToScript, 5, 6, 9);
    InertJoin("sqrt(", ToScript, 4, 5, 9);
    InertJoin("sqrt(", ToScript, 0, 4, 9);
    SqrtScriptAfter();
    TwoPhase("sqrt(", "Math.sqrt(", ToScript, 0, 9, 11);
  }

  lemma SqrtToDisplay()
    ensures CleanFrom("Math.sqrt(", ToDisplay, 0, 11) && Rewrite("Math.sqrt(", ToDisplay, 0, 11) == "sqrt("
  {
    SqrtDisplayBeforeRows0();
    SqrtDisplayBeforeRows2();
    SqrtDisplayBeforeRows4();
    SqrtDisplayBeforeRows5();
    InertJoin("Math.sqrt(", ToDisplay, 4, 5, 9);
    InertJoin("Math.sqrt(", ToDisplay, 2, 4, 9);
    InertJoin("Math.sqrt(", ToDisplay, 0, 2, 9);
    SqrtDisplayAfter();
    TwoPhase("Math.sqrt(", "sqrt(", ToDisplay, 0, 9, 11);
  }

  lemma SqrtScriptBeforeRows0()
    ensures InertFrom("sqrt(", ToScript, 0, 4)
  {
    InertRows("sqrt(", ToScript, 0, 4, Absent);
  }

  lemma SqrtScriptBeforeRows4()
    ensures InertFrom("sqrt(", ToScript, 4, 5)
  {
    InertRows("sqrt(", ToScript, 4, 5, OneHit(0, 1));
  }

  lemma SqrtScriptBeforeRows5()
    ensures InertFrom("sqrt(", ToScript, 5, 6)
  {
    InertRows("sqrt(", ToScript, 5, 6, Absent);
  }

  lemma SqrtScriptBeforeRows6()
    ensures InertFrom("sqrt(", ToScript, 6, 7)
  {
    InertRows("sqrt(", ToScript, 6, 7, OneHit(3, 1));
  }

  lemma SqrtScriptBeforeRows7()
    ensures InertFrom("sqrt(", ToScript, 7, 9)
  {
    InertRows("sqrt(", ToScript, 7, 9, Absent);
  }

  lemma SqrtScriptAfter()
    ensures InertFrom("Math.sqrt(", ToScript, 10, 11)
  {
    InertRows("Math.sqrt(", ToScript, 10, 11, Absent);
  }

  lemma SqrtDisplayBeforeRows0()
    ensures InertFrom("Math.sqrt(", ToDisplay, 0, 2)
  {
    InertRows("Math.sqrt(", ToDisplay, 0, 2, Absent);
  }

  lemma SqrtDisplayBeforeRows2()
    ensures InertFrom("Math.sqrt(", ToDisplay, 2, 4)
  {
    InertRows("Math.sqrt(", ToDisplay, 2, 4, OneHit(0, 5));
  }

  lemma SqrtDisplayBeforeRows4()
    ensures InertFrom("Math.sqrt(", ToDisplay, 4, 5)
  {
    InertRows("Math.sqrt(", ToDisplay, 4, 5, OneHit(0, 6));
  }

  lemma SqrtDisplayBeforeRows5()
    ensures InertFrom("Math.sqrt(", ToDisplay, 5, 9)
  {
    InertRows("Math.sqrt(", ToDisplay, 5, 9, OneHit(0, 5));
  }

  lemma SqrtDisplayAfter()
    ensures InertFrom("sqrt(", ToDisplay, 10, 11)
  {
    InertRows("sqrt(", ToDisplay, 10, 11, Absent);
  }

  lemma PowerToScript()
    ensures CleanFrom("^", ToScript, 0, 11) && Rewrite("^", ToScript, 0, 11) == "**"
  {
    PowerScriptBefore();
    PowerScriptAfter();
    TwoPhase("^", "**", ToScript, 0, 10, 11);
  }

  lemma PowerScriptBefore()
    ensures InertFrom("^", ToScript, 0, 10)
  {
    InertRows("^", ToScript, 0, 10, Absent);
  }

  lemma PowerScriptAfter()
    ensures InertFrom("**", ToScript, 11, 11)
  {
    InertRows("**", ToScript, 11, 11, Absent);
  }

  /** The script power operator meets the `*` row first and comes out as two multiplication signs. */
  lemma PowerToDisplay()
    ensures CleanFrom("**", ToDisplay, 0, 11) && Rewrite("**", ToDisplay, 0, 11) == "××"
  {
    StartsWithItself("*");
    assert "**"[1..] == "*" && "*"[1..] == [];
    assert ReplaceAll("**", "*", "×") == "××";
    assert SplitSafe("**", "*");
    InertRows("××", ToDisplay, 1, 11, Absent);
    InertClean("××", ToDisplay, 1, 11);
  }

  // ---------------------------------------------------------------------------
  // A function name that no `(` follows

  /**
   * A character that may follow a function name in the display without
   * completing an occurrence of a pattern of the sanitising chain: the
   * patterns that a name's end can begin continue with `(`, `in(`, `qrt(`
   * (after the `s` of `cos`) or `an(` (after the `t` of `sqrt`).
   */
  predicate NameFollower(x: char)
  {
    x != '(' && x != 'i' && x != 'q' && x != 'a'
  }

  /**
   * How a name `a` avoids a pattern `p` whatever follower comes next: `a`
   * lacks the pattern's first character, or holds it once, at `h`, and from
   * there differs from `p` at offset `m`, inside `a` or at the follower.
   */
  predicate NameAvoids(a: string, p: string, w: Witness)
  {
    p != [] &&
    match w
    case Absent => p[0] !in a
    case OneHit(h, m) =>
      h + m <= |a| && m < |p| &&
      (if h + m < |a| then a[h + m] != p[m] else !NameFollower(p[m])) &&
      forall k :: 0 <= k < |a| && k != h ==> a[k] != p[0]
  }

  lemma NameAvoidsSound(a: string, x: char, p: string, w: Witness)
    requires NameAvoids(a, p, w) && NameFollower(x)
    ensures Unstraddled(a, x, p)
  {
    forall k | 0 <= k < |a|
      ensures !CompatibleNext(a[k..], x, p)
    {
      var j := match w case Absent => 0 case OneHit(h, m) => if k == h then m else 0;
      CompatibleNextIndex(a[k..], x, p, j);
    }
    UnstraddledAll(a, x, p);
  }

  /** How each function name avoids row `j` of the sanitising chain. */
  function NameWitness(k: Key, j: nat): Witness
  {
    match k
    case Sin => if j == 4 then OneHit(0, 3) else if j == 9 then OneHit(0, 1) else Absent
    case Cos =>
      if j == 4 || j == 9 then OneHit(2, 1) else if j == 5 then OneHit(0, 3) else Absent
    case Tan => if j == 6 then OneHit(0, 3) else Absent
    case Log => if j == 7 then OneHit(0, 3) else if j == 8 then OneHit(0, 1) else Absent
    case Ln => if j == 7 then OneHit(0, 1) else if j == 8 then OneHit(0, 2) else Absent
    case Sqrt =>
      if j == 4 then OneHit(0, 1) else if j == 6 then OneHit(3, 1) else if j == 9 then OneHit(0, 4) else Absent
    case _ => Absent
  }

  lemma NameRows(k: Key)
    requires FunctionKey(k)
    ensures forall j :: 0 <= j < 11 ==> NameAvoids(KeyText(k), RuleAt(ToScript, j).pat, NameWitness(k, j))
  {
    match k
    case Sin =>
    case Cos =>
    case Tan =>
    case Log =>
    case Ln =>
    case Sqrt =>
  }

  /** Every replacement of the sanitising chain begins with a character that may follow a name. */
  lemma ScriptRepHead(j: nat)
    requires j < 11
    ensures RuleAt(ToScript, j).rep != [] && NameFollower(RuleAt(ToScript, j).rep[0])
  {
  }

  lemma {:induction false} NameRewrite(k: Key, b: string, lo: nat)
    requires FunctionKey(k) && lo <= 11
    requires forall j :: lo <= j < 11 ==> NameAvoids(KeyText(k), RuleAt(ToScript, j).pat, NameWitness(k, j))
    requires b == [] || NameFollower(b[0])
    ensures Rewrite(KeyText(k) + b, ToScript, lo, 11) == KeyText(k) + Rewrite(b, ToScript, lo, 11)
    decreases 11 - lo
  {
    if lo < 11 {
      var a, r := KeyText(k), RuleAt(ToScript, lo);
      var x := if b == [] then '0' else b[0];
      NameAvoidsSound(a, x, r.pat, NameWitness(k, lo));
      ReplaceAllBefore(a, x, b, r.pat, r.rep);
      ScriptRepHead(lo);
      ReplaceAllHead(b, r.pat, r.rep);
      NameRewrite(k, ReplaceAll(b, r.pat, r.rep), lo + 1);
    }
  }

  /**
   * A function name followed by anything but `(` (or the rest of a name) is
   * left as it is, and the text after it is sanitised on its own.
   */
  lemma NameSanitizes(k: Key, b: string)
    requires FunctionKey(k) && (b == [] || NameFollower(b[0]))
    ensures Sanitize(KeyText(k) + b) == KeyText(k) + Sanitize(b)
  {
    NameRows(k);
    NameRewrite(k, b, 0);
  }

  /** Every key but `(` begins with a character that may follow a name. */
  lemma KeyFollowsName(k: Key)
    requires ValidKey(k) && k != Open
    ensures KeyText(k) != [] && NameFollower(KeyText(k)[0])
  {
  }

  lemma DisplayHead(ks: seq<Key>)
    requires ks != []
    ensures Display(ks) == KeyText(ks[0]) + Display(ks[1..])
    ensures KeyText(ks[0]) != [] ==> Display(ks)[0] == KeyText(ks[0])[0]
  {
  }

  // ---------------------------------------------------------------------------
  // Each key, and each call, through each chain

  /** Each key's display text, a function name apart, is rewritten on its own into its JavaScript text. */
  lemma KeySanitizes(k: Key)
    requires ValidKey(k) && !FunctionKey(k)
    ensures CleanFrom(KeyText(k), ToScript, 0, 11)
    ensures Rewrite(KeyText(k), ToScript, 0, 11) == ScriptText(k)
  {
    match k
    case Times => TimesToScript();
    case Divide => DivideToScript();
    case Power => PowerToScript();
    case Pi => PiToScript();
    case Euler => EulerToScript();
    case _ => PlainKeyInert(k, ToScript);
  }

  /** A function name followed by `(` is rewritten on its own into the JavaScript call. */
  lemma CallSanitizes(k: Key)
    requires FunctionKey(k)
    ensures CleanFrom(CallText(k), ToScript, 0, 11)
    ensures Rewrite(CallText(k), ToScript, 0, 11) == CallScript(k)
  {
    match k
    case Sin => SinToScript();
    case Cos => CosToScript();
    case Tan => TanToScript();
    case Log => LogToScript();
    case Ln => LnToScript();
    case Sqrt => SqrtToScript();
  }

  /** A bare function name holds none of the formatting chain's first characters. */
  lemma NameFormats(k: Key, c: Chain)
    requires FunctionKey(k) && c != ToScript
    ensures CleanFrom(KeyText(k), c, 0, 11) && Rewrite(KeyText(k), c, 0, 11) == KeyText(k)
  {
    forall j | 0 <= j < 11
      ensures Avoids(KeyText(k), RuleAt(c, j).pat, Absent)
    {
      assert RuleAt(c, j).pat[0] in {'*', '/', 'M'};
    }
    InertRows(KeyText(k), c, 0, 11, Absent);
    InertClean(KeyText(k), c, 0, 11);
  }

  /** Each key's JavaScript text is formatted on its own into what is shown for it. */
  lemma KeyFormats(k: Key)
    requires ValidKey(k)
    ensures CleanFrom(ScriptText(k), ToDisplay, 0, 11)
    ensures Rewrite(ScriptText(k), ToDisplay, 0, 11) == ShownText(k)
  {
    match k
    case Times => TimesToDisplay();
    case Divide => DivideToDisplay();
    case Power => PowerToDisplay();
    case Pi => PiToDisplay();
    case Euler => EulerToDisplay();
    case Sin => NameFormats(k, ToDisplay);
    case Cos => NameFormats(k, ToDisplay);
    case Tan => NameFormats(k, ToDisplay);
    case Log => NameFormats(k, ToDisplay);
    case Ln => NameFormats(k, ToDisplay);
    case Sqrt => NameFormats(k, ToDisplay);
    case _ => PlainKeyInert(k, ToDisplay);
  }

  /** A JavaScript call is formatted on its own into the function name and `(`. */
  lemma CallFormats(k: Key)
    requires FunctionKey(k)
    ensures CleanFrom(CallScript(k), ToDisplay, 0, 11)
    ensures Rewrite(CallScript(k), ToDisplay, 0, 11) == CallText(k)
  {
    match k
    case Sin => SinToDisplay();
    case Cos => CosToDisplay();
    case Tan => TanToDisplay();
    case Log => LogToDisplay();
    case Ln => LnToDisplay();
    case Sqrt => SqrtToDisplay();
  }

  // ---------------------------------------------------------------------------
  // The round trip between the two chains

  /** Keys that start with a call display the call, then the rest. */
  lemma CallDisplay(ks: seq<Key>)
    requires StartsWithCall(ks)
    ensures Display(ks) == CallText(ks[0]) + Display(ks[2..])
  {
    var k, rest := ks[0], ks[2..];
    assert ks[1..][0] == Open && ks[1..][1..] == rest;
    assert Display(ks[1..]) == "(" + Display(rest);
    assert Display(ks) == KeyText(k) + ("(" + Display(rest));
  }

  /** Keys that start with a call are shown as the call, then the rest. */
  lemma CallShown(ks: seq<Key>)
    requires StartsWithCall(ks)
    ensures Shown(ks) == CallText(ks[0]) + Shown(ks[2..])
  {
    var k, rest := ks[0], ks[2..];
    assert ks[1..][0] == Open && ks[1..][1..] == rest;
    assert Shown(ks[1..]) == "(" + Shown(rest);
    assert Shown(ks) == KeyText(k) + ("(" + Shown(rest));
  }

  /** A call and what follows it are sanitised apart. */
  lemma SanitizeCallStep(ks: seq<Key>)
    requires StartsWithCall(ks) && Sanitize(Display(ks[2..])) == Script(ks[2..])
    ensures Sanitize(Display(ks)) == Script(ks)
  {
    var rest := Display(ks[2..]);
    CallDisplay(ks);
    CallSanitizes(ks[0]);
    RewriteConcat(CallText(ks[0]), rest, ToScript, 0, 11);
  }

  /** A function name whose next key is not `(` is kept, and what follows is sanitised apart. */
  lemma SanitizeNameStep(ks: seq<Key>)
    requires ValidKeys(ks) && ks != [] && FunctionKey(ks[0]) && !StartsWithCall(ks)
    requires Sanitize(Display(ks[1..])) == Script(ks[1..])
    ensures Sanitize(Display(ks)) == Script(ks)
  {
    if ks[1..] != [] {
      KeyFollowsName(ks[1]);
      DisplayHead(ks[1..]);
    }
    NameSanitizes(ks[0], Display(ks[1..]));
  }

  /** Any other key and what follows it are sanitised apart. */
  lemma SanitizeKeyStep(ks: seq<Key>)
    requires ks != [] && ValidKey(ks[0]) && !FunctionKey(ks[0])
    requires Sanitize(Display(ks[1..])) == Script(ks[1..])
    ensures Sanitize(Display(ks)) == Script(ks)
  {
    KeySanitizes(ks[0]);
    RewriteConcat(KeyText(ks[0]), Display(ks[1..]), ToScript, 0, 11);
  }

  /** Sanitising display text made of keys gives their JavaScript text, each call read as one. */
  lemma {:induction false} SanitizeKeys(ks: seq<Key>)
    requires ValidKeys(ks)
    ensures Sanitize(Display(ks)) == Script(ks)
  {
    if ks == [] {
      RewriteEmpty(ToScript, 0, 11);
    } else if StartsWithCall(ks) {
      SanitizeKeys(ks[2..]);
      SanitizeCallStep(ks);
    } else if FunctionKey(ks[0]) {
      SanitizeKeys(ks[1..]);
      SanitizeNameStep(ks);
    } else {
      SanitizeKeys(ks[1..]);
      SanitizeKeyStep(ks);
    }
  }

  /** A call and what follows it are formatted apart. */
  lemma FormatCallStep(ks: seq<Key>)
    requires StartsWithCall(ks) && Format(Script(ks[2..])) == Shown(ks[2..])
    ensures Format(Script(ks)) == Shown(ks)
  {
    CallShown(ks);
    CallFormats(ks[0]);
    RewriteConcat(CallScript(ks[0]), Script(ks[2..]), ToDisplay, 0, 11);
  }

  /** Any other key and what follows it are formatted apart. */
  lemma FormatKeyStep(ks: seq<Key>)
    requires ks != [] && ValidKey(ks[0]) && !StartsWithCall(ks)
    requires Format(Script(ks[1..])) == Shown(ks[1..])
    ensures Format(Script(ks)) == Shown(ks)
  {
    KeyFormats(ks[0]);
    RewriteConcat(ScriptText(ks[0]), Script(ks[1..]), ToDisplay, 0, 11);
  }

  /** Formatting JavaScript text made of keys shows every key by its display text, and `**` as `××`. */
  lemma {:induction false} FormatScript(ks: seq<Key>)
    requires ValidKeys(ks)
    ensures Format(Script(ks)) == Shown(ks)
  {
    if ks == [] {
      RewriteEmpty(ToDisplay, 0, 11);
    } else if StartsWithCall(ks) {
      FormatScript(ks[2..]);
      FormatCallStep(ks);
    } else {
      FormatScript(ks[1..]);
      FormatKeyStep(ks);
    }
  }

  lemma {:induction false} ShownWithoutPower(ks: seq<Key>)
    requires Power !in ks
    ensures Shown(ks) == Display(ks)
  {
    if ks != [] {
      assert ks[0] != Power && Power !in ks[1..];
      ShownWithoutPower(ks[1..]);
    }
  }

  /** As written, formatting the sanitised text gives back every key except `^`, which comes back as `××`. */
  lemma RoundTripAsWritten(ks: seq<Key>)
    requires ValidKeys(ks)
    ensures Format(Sanitize(Display(ks))) == Shown(ks)
  {
    SanitizeKeys(ks);
    FormatScript(ks);
  }

  /** The two chains invert each other on display text without `^`. */
  lemma RoundTrip(ks: seq<Key>)
    requires ValidKeys(ks) && Power !in ks
    ensures Format(Sanitize(Display(ks))) == Display(ks)
  {
    RoundTripAsWritten(ks);
    ShownWithoutPower(ks);
  }

  /** `2^3` comes back as `2××3`. */
  lemma PowerRoundTripExample()
    ensures Format(Sanitize("2^3")) == "2××3"
  {
    var ks := [Digit('2'), Power, Digit('3')];
    assert Display(ks) == "2^3";
    assert Shown(ks) == "2××3";
    RoundTripAsWritten(ks);
  }

  /**
   * The `sqrt` key followed by a digit stays the bare name `sqrt9`, which
   * the evaluation cannot resolve; formatting shows it unchanged.
   */
  lemma BareNameExample()
    ensures Sanitize("sqrt9") == "sqrt9"
    ensures Format(Sanitize("sqrt9")) == "sqrt9"
  {
    var ks := [Sqrt, Digit('9')];
    assert Display(ks) == "sqrt9";
    assert Script(ks) == "sqrt9";
    SanitizeKeys(ks);
    RoundTrip(ks);
  }

  // ---------------------------------------------------------------------------
  // The corrected formatting chain

  /**
   * A `×` key is never followed by `×` or `^`: then the runs of `*` in the
   * JavaScript text can be read back unambiguously.
   */
  predicate NoStarClash(ks: seq<Key>)
  {
    forall i :: 0 <= i < |ks| - 1 && ks[i] == Times ==> ks[i + 1] != Times && ks[i + 1] != Power
  }

  lemma ScriptTextStarFree(k: Key)
    requires ValidKey(k) && k != Times && k != Power
    ensures ScriptText(k) != [] && '*' !in ScriptText(k)
  {
  }

  /** The JavaScript text of keys that start with neither `×` nor `^` does not start with `*`. */
  lemma ScriptHeadStarFree(ks: seq<Key>)
    requires ks != [] && ValidKey(ks[0]) && ks[0] != Times && ks[0] != Power
    ensures Script(ks) != [] && Script(ks)[0] != '*'
  {
    if !StartsWithCall(ks) {
      ScriptTextStarFree(ks[0]);
    }
  }

  /** The `**` row of the corrected chain turns exactly the `^` keys' `**` into `^`. */
  lemma {:induction false} FixedFirstRow(ks: seq<Key>)
    requires ValidKeys(ks) && NoStarClash(ks)
    ensures ReplaceAll(Script(ks), "**", "^") == CaretScript(ks)
  {
    if ks == [] {
    } else {
      var n := if StartsWithCall(ks) then 2 else 1;
      var rest := Script(ks[n..]);
      assert ValidKeys(ks[n..]) && NoStarClash(ks[n..]) by {
        assert forall i :: 0 <= i < |ks[n..]| ==> ks[n..][i] == ks[i + n];
      }
      FixedFirstRow(ks[n..]);
      if ks[0] == Power {
        StartsWithItself("**");
        StartsWithAppend("**", rest, "**");
        assert ("**" + rest)[2..] == rest;
      } else if ks[0] == Times {
        assert Script(ks) == "*" + rest;
        if ks[1..] != [] {
          assert ks[1..][0] == ks[1];
          ScriptHeadStarFree(ks[1..]);
          assert !StartsWith(Script(ks), "**");
        } else {
          assert !StartsWith(Script(ks), "**");
        }
        assert ("*" + rest)[1..] == rest;
      } else {
        var t := if n == 2 then CallScript(ks[0]) else ScriptText(ks[0]);
        if n == 1 { ScriptTextStarFree(ks[0]); }
        assert Script(ks) == t + rest;
        MatchFreeByFirstChar(t, "**");
        ReplaceAllMatchFree(t, "**", "^");
        ReplaceAllConcat(t, rest, "**", "^");
      }
    }
  }

  /** On every key, the corrected chain after its `**` row gives back the display text. */
  lemma KeyFormatsFixed(k: Key)
    requires ValidKey(k)
    ensures CleanFrom(CaretText(k), ToDisplayFixed, 1, 11)
    ensures Rewrite(CaretText(k), ToDisplayFixed, 1, 11) == KeyText(k)
  {
    if k == Power {
      InertRows("^", ToDisplayFixed, 1, 11, Absent);
      InertClean("^", ToDisplayFixed, 1, 11);
    } else {
      var t := ScriptText(k);
      KeyFormats(k);
      CleanPrefix(t, ToDisplay, 0, 10, 11);
      FixedShift(t, 0, 10);
      FormatLastRowDead(t);
    }
  }

  /** On every call, the corrected chain after its `**` row gives back the name and `(`. */
  lemma CallFormatsFixed(k: Key)
    requires FunctionKey(k)
    ensures CleanFrom(CallScript(k), ToDisplayFixed, 1, 11)
    ensures Rewrite(CallScript(k), ToDisplayFixed, 1, 11) == CallText(k)
  {
    var t := CallScript(k);
    CallFormats(k);
    CleanPrefix(t, ToDisplay, 0, 10, 11);
    FixedShift(t, 0, 10);
    FormatLastRowDead(t);
  }

  /** A call and what follows it are formatted apart by the rest of the corrected chain. */
  lemma CaretCallStep(ks: seq<Key>)
    requires StartsWithCall(ks)
    requires Rewrite(CaretScript(ks[2..]), ToDisplayFixed, 1, 11) == Display(ks[2..])
    ensures Rewrite(CaretScript(ks), ToDisplayFixed, 1, 11) == Display(ks)
  {
    CallDisplay(ks);
    CallFormatsFixed(ks[0]);
    RewriteConcat(CallScript(ks[0]), CaretScript(ks[2..]), ToDisplayFixed, 1, 11);
  }

  /** Any other key and what follows it are formatted apart by the rest of the corrected chain. */
  lemma CaretKeyStep(ks: seq<Key>)
    requires ks != [] && ValidKey(ks[0]) && !StartsWithCall(ks)
    requires Rewrite(CaretScript(ks[1..]), ToDisplayFixed, 1, 11) == Display(ks[1..])
    ensures Rewrite(CaretScript(ks), ToDisplayFixed, 1, 11) == Display(ks)
  {
    KeyFormatsFixed(ks[0]);
    RewriteConcat(CaretText(ks[0]), CaretScript(ks[1..]), ToDisplayFixed, 1, 11);
  }

  lemma {:induction false} CaretFormats(ks: seq<Key>)
    requires ValidKeys(ks)
    ensures Rewrite(CaretScript(ks), ToDisplayFixed, 1, 11) == Display(ks)
  {
    if ks == [] {
      RewriteEmpty(ToDisplayFixed, 1, 11);
    } else if StartsWithCall(ks) {
      CaretFormats(ks[2..]);
      CaretCallStep(ks);
    } else {
      CaretFormats(ks[1..]);
      CaretKeyStep(ks);
    }
  }

  /** With the `**` row first, formatting inverts sanitising, `^` included, wherever the reading is unambiguous. */
  lemma FixedRoundTrip(ks: seq<Key>)
    requires ValidKeys(ks) && NoStarClash(ks)
    ensures FormatFixed(Sanitize(Display(ks))) == Display(ks)
  {
    SanitizeKeys(ks);
    RewriteUnfold(Script(ks), ToDisplayFixed, 0, 11);
    FixedFirstRow(ks);
    CaretFormats(ks);
  }

  /** The corrected chain shows `2**3` as `2^3`, and so `2^3` survives the round trip. */
  lemma FixedPowerExample()
    ensures FormatFixed(Sanitize("2^3")) == "2^3"
  {
    var ks := [Digit('2'), Power, Digit('3')];
    assert Display(ks) == "2^3";
    FixedRoundTrip(ks);
  }

  /** Two multiplication signs in a row and a power sign both sanitise to `**`: no formatting can tell them apart. */
  lemma StarClashExample()
    ensures Sanitize("2××3") == Sanitize("2^3") == "2**3"
  {
    var times := [Digit('2'), Times, Times, Digit('3')];
    var power := [Digit('2'), Power, Digit('3')];
    assert Display(times) == "2××3" && Display(power) == "2^3";
    assert Script(times) == "2**3" && Script(power) == "2**3";
    SanitizeKeys(times);
    SanitizeKeys(power);
  }

  // ---------------------------------------------------------------------------
  // What each chain guarantees for every input

  lemma SanitizeRemovesTimes(s: string)
    ensures '×' !in Sanitize(s)
  {
    CharRemoved(s, ToScript, '×', 0, 11);
  }

  lemma SanitizeRemovesDivide(s: string)
    ensures '÷' !in Sanitize(s)
  {
    CharRemoved(s, ToScript, '÷', 1, 11);
  }

  lemma SanitizeRemovesPi(s: string)
    ensures 'π' !in Sanitize(s)
  {
    CharRemoved(s, ToScript, 'π', 2, 11);
  }

  lemma SanitizeRemovesCaret(s: string)
    ensures '^' !in Sanitize(s)
  {
    CharRemoved(s, ToScript, '^', 10, 11);
  }

  /** No display glyph survives sanitising: `×`, `÷`, `π` and `^` each have a row, and no later row brings one back. */
  lemma SanitizeRemovesGlyphs(s: string)
    ensures '×' !in Sanitize(s) && '÷' !in Sanitize(s)
    ensures 'π' !in Sanitize(s) && '^' !in Sanitize(s)
  {
    SanitizeRemovesTimes(s);
    SanitizeRemovesDivide(s);
    SanitizeRemovesPi(s);
    SanitizeRemovesCaret(s);
  }

  /**
   * No lowercase `e` survives, wherever it stood: row 3 rewrites every one,
   * the exponent marker of a number such as `1e+21` included, and none of the
   * later rows' JavaScript names holds an `e`.
   */
  lemma SanitizeRemovesE(s: string)
    ensures 'e' !in Sanitize(s)
  {
    CharRemoved(s, ToScript, 'e', 3, 11);
  }

  /** Digits, `.`, `+`, `-` and parentheses pass through unchanged. */
  lemma SanitizePlain(s: string)
    requires forall k :: 0 <= k < |s| ==> PlainChar(s[k])
    ensures Sanitize(s) == s
  {
    OutsideInert(s, ToScript, 0, 11);
    InertClean(s, ToScript, 0, 11);
  }

  lemma RewriteUnfold(s: string, c: Chain, lo: nat, hi: nat)
    requires lo < hi <= 11
    ensures Rewrite(s, c, lo, hi) == Rewrite(ReplaceAll(s, RuleAt(c, lo).pat, RuleAt(c, lo).rep), c, lo + 1, hi)
  {
  }

  /** Rows 1 to 9 neither hold nor produce a `*` or a `^`, so they keep the count of each. */
  lemma ScriptMiddleRowsKeep(x: char, s: string)
    requires x == '*' || x == '^'
    ensures Count(x, Rewrite(s, ToScript, 1, 10)) == Count(x, s)
  {
    RewriteSplit(s, ToScript, 1, 5, 10);
    CountStays(s, ToScript, x, 1, 5);
    ScriptRowsKeep(x, Rewrite(s, ToScript, 1, 5));
  }

  lemma ScriptRowsKeep(x: char, s: string)
    requires x == '*' || x == '^'
    ensures Count(x, Rewrite(s, ToScript, 5, 10)) == Count(x, s)
  {
    CountStays(s, ToScript, x, 5, 10);
  }

  /** Each `×` becomes exactly one `*` and each `^` exactly two; a `*` already there stays. */
  lemma SanitizeStarCount(s: string)
    ensures Count('*', Sanitize(s)) == Count('*', s) + Count('×', s) + 2 * Count('^', s)
  {
    var s1 := ReplaceAll(s, "×", "*");
    var s10 := Rewrite(s1, ToScript, 1, 10);
    RewriteUnfold(s, ToScript, 0, 11);
    RewriteSplit(s1, ToScript, 1, 10, 11);
    RewriteUnfold(s10, ToScript, 10, 11);
    assert Sanitize(s) == ReplaceAll(s10, "^", "**");
    CountReplaceCharBy('*', s, '×', "*", 1);
    CountReplaceOther('^', s, "×", "*");
    ScriptMiddleRowsKeep('*', s1);
    ScriptMiddleRowsKeep('^', s1);
    CountReplaceCharBy('*', s10, '^', "**", 2);
  }

  lemma ScriptLaterRowsKeepSlash(s: string)
    ensures Count('/', Rewrite(s, ToScript, 2, 11)) == Count('/', s)
  {
    CountStays(s, ToScript, '/', 2, 11);
  }

  /** Each `÷` becomes exactly one `/`; a `/` already there stays. */
  lemma SanitizeSlashCount(s: string)
    ensures Count('/', Sanitize(s)) == Count('/', s) + Count('÷', s)
  {
    var s1 := ReplaceAll(s, "×", "*");
    var s2 := ReplaceAll(s1, "÷", "/");
    RewriteUnfold(s, ToScript, 0, 11);
    RewriteUnfold(s1, ToScript, 1, 11);
    ScriptLaterRowsKeepSlash(s2);
    CountReplaceCharBy('/', s1, '÷', "/", 1);
    CountReplaceOther('/', s, "×", "*");
    CountReplaceOther('÷', s, "×", "*");
  }

  /** No `*` and no `/` survives formatting. */
  lemma FormatRemovesOperators(s: string)
    ensures '*' !in Format(s) && '/' !in Format(s)
  {
    FormatRemovesStar(s);
    FormatRemovesSlash(s);
  }

  lemma FormatRemovesSlash(s: string)
    ensures '/' !in Format(s)
  {
    CharRemoved(s, ToDisplay, '/', 1, 11);
  }

  lemma FormatRemovesStar(s: string)
    ensures '*' !in Format(s)
  {
    CharRemoved(s, ToDisplay, '*', 0, 11);
  }

  /**
   * The last row, `**` → `^`, never changes anything: the first row has
   * already turned every `*` into `×`.
   */
  lemma FormatLastRowDead(s: string)
    ensures Format(s) == Rewrite(s, ToDisplay, 0, 10)
  {
    RewriteSplit(s, ToDisplay, 0, 10, 11);
    var t := Rewrite(s, ToDisplay, 0, 10);
    DisplayRowsRemoveStar(s);
    MatchFreeByFirstChar(t, "**");
    ReplaceAllMatchFree(t, "**", "^");
  }

  lemma DisplayRowsRemoveStar(s: string)
    ensures '*' !in Rewrite(s, ToDisplay, 0, 10)
  {
    CharRemoved(s, ToDisplay, '*', 0, 10);
  }

  lemma DisplayRowsKeepCaret(s: string)
    ensures Count('^', Rewrite(s, ToDisplay, 0, 10)) == Count('^', s)
  {
    CountStays(s, ToDisplay, '^', 0, 10);
  }

  /** Formatting never makes a `^`: it shows one exactly where the input holds one. */
  lemma FormatCaretCount(s: string)
    ensures Count('^', Format(s)) == Count('^', s)
  {
    FormatLastRowDead(s);
    DisplayRowsKeepCaret(s);
  }

  /** `log(` and `ln(` are told apart: the `Math.log10(` and `Math.log(` rows do not interfere. */
  lemma LogarithmsExample()
    ensures Sanitize("log(ln(2))") == "Math.log10(Math.log(2))"
    ensures Format("Math.log10(Math.log(2))") == "log(ln(2))"
  {
    var tail := [Digit('2'), Close, Close];
    assert Display(tail) == Shown(tail) == Script(tail) == "2))";
    var inner := [Ln, Open] + tail;
    assert inner[1..][1..] == inner[2..] == tail;
    assert Display(inner) == Shown(inner) == "ln(2))";
    assert Script(inner) == "Math.log(2))";
    var ks := [Log, Open] + inner;
    assert ks[1..][1..] == ks[2..] == inner;
    assert Display(ks) == Shown(ks) == "log(ln(2))";
    assert Script(ks) == "Math.log10(Math.log(2))";
    assert ValidKeys(ks);
    SanitizeKeys(ks);
    FormatScript(ks);
  }

  /** A number shown in exponent form loses its exponent marker: its `e` is read as Euler's number. */
  lemma ExponentExample()
    ensures Sanitize("1e+21") == "1Math.E+21"
  {
    var tail := [Plus, Digit('2'), Digit('1')];
    assert Display(tail) == Script(tail) == "+21";
    var ks := [Digit('1'), Euler] + tail;
    assert ks[1..][1..] == tail;
    assert Display(ks) == "1e+21";
    assert Script(ks) == "1Math.E+21";
    SanitizeKeys(ks);
  }
}
