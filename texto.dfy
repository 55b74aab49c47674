/**
 * The JavaScript and PostgreSQL string operations the catalog relies on:
 * substring search (`contains`, case-sensitive and case-insensitive),
 * `String.prototype.trim`, the global `parseInt` and the decimal rendering
 * of an integer inside a template literal.
 */
module Texto {
  import opened Wrappers

  /** A JavaScript number as it reaches the service: an integer or NaN. */
  datatype NumeroJs = NaN | Entero(valor: int)

  // ---------------------------------------------------------------------
  // Substring search

  predicate EsPrefijo(p: string, s: string)
  {
    |p| <= |s| && s[..|p|] == p
  }

  /** `sub` occurs somewhere in `s`. */
  predicate Contiene(s: string, sub: string)
    decreases |s|
  {
    EsPrefijo(sub, s) || (|s| > 0 && Contiene(s[1..], sub))
  }

  /** Whatever surrounds it, a string contains itself. */
  lemma {:induction false} ContieneEnMedio(a: string, sub: string, b: string)
    ensures Contiene(a + sub + b, sub)
    decreases |a|
  {
    if |a| == 0 {
      assert a + sub + b == sub + b;
      assert (sub + b)[..|sub|] == sub;
    } else {
      ContieneEnMedio(a[1..], sub, b);
      assert (a + sub + b)[1..] == a[1..] + sub + b;
    }
  }

  /** `sub` sits in `s` starting at index `i`. */
  predicate ApareceEn(s: string, sub: string, i: int)
  {
    0 <= i && i + |sub| <= |s| && s[i..i + |sub|] == sub
  }

  /** An occurrence at an index is an occurrence. */
  lemma {:induction false} PosicionDaContiene(s: string, sub: string, i: int)
    requires ApareceEn(s, sub, i)
    ensures Contiene(s, sub)
    decreases i
  {
    if i == 0 {
      assert s[..|sub|] == s[0..|sub|];
    } else {
      assert s[1..][i - 1..i - 1 + |sub|] == s[i..i + |sub|];
      PosicionDaContiene(s[1..], sub, i - 1);
    }
  }

  /** An occurrence has an index. */
  lemma {:induction false} ContieneDaPosicion(s: string, sub: string)
    requires Contiene(s, sub)
    ensures exists i :: ApareceEn(s, sub, i)
    decreases |s|
  {
    if EsPrefijo(sub, s) {
      assert s[0..|sub|] == s[..|sub|];
      assert ApareceEn(s, sub, 0);
    } else {
      ContieneDaPosicion(s[1..], sub);
      var j :| ApareceEn(s[1..], sub, j);
      assert s[1..][j..j + |sub|] == s[j + 1..j + 1 + |sub|];
      assert ApareceEn(s, sub, j + 1);
    }
  }

  /** `Contiene` is the usual substring test: some index where `sub` starts in `s`. */
  lemma ContieneSiYSoloSiAparece(s: string, sub: string)
    ensures Contiene(s, sub) <==> exists i :: ApareceEn(s, sub, i)
  {
    if Contiene(s, sub) {
      ContieneDaPosicion(s, sub);
    }
    if exists i :: ApareceEn(s, sub, i) {
      var i :| ApareceEn(s, sub, i);
      PosicionDaContiene(s, sub, i);
    }
  }

  /** ASCII lower-casing of one character. */
  function MinusculaChar(c: char): char
  {
    if 'A' <= c <= 'Z' then (c as int - 'A' as int + 'a' as int) as char else c
  }

  function Minusculas(s: string): string
  {
    seq(|s|, i requires 0 <= i < |s| => MinusculaChar(s[i]))
  }

  /** A string can only contain what is no longer than itself. */
  lemma {:induction false} ContieneAcotado(s: string, sub: string)
    requires Contiene(s, sub)
    ensures |sub| <= |s|
    decreases |s|
  {
    if !EsPrefijo(sub, s) {
      ContieneAcotado(s[1..], sub);
    }
  }

  /**
   * Case-insensitive `contains`, the `mode: insensitive` filter of the store:
   * the empty term matches every name, and no term longer than the name does.
   */
  function ContieneSinMayusculas(s: string, sub: string): (r: bool)
    ensures sub == [] ==> r
    ensures r ==> |sub| <= |s|
  {
    assert EsPrefijo([], Minusculas(s));
    if Contiene(Minusculas(s), Minusculas(sub)) then
      ContieneAcotado(Minusculas(s), Minusculas(sub));
      true
    else false
  }

  lemma MinusculasIdempotente(s: string)
    ensures Minusculas(Minusculas(s)) == Minusculas(s)
  {
  }

  /** The case of the name and of the term makes no difference to the match. */
  lemma SinMayusculasIgnoraCaso(s: string, sub: string)
    ensures ContieneSinMayusculas(Minusculas(s), sub) == ContieneSinMayusculas(s, sub)
    ensures ContieneSinMayusculas(s, Minusculas(sub)) == ContieneSinMayusculas(s, sub)
  {
    MinusculasIdempotente(s);
    MinusculasIdempotente(sub);
  }

  /** The case-insensitive match holds exactly when the lower-cased term starts at some index of the lower-cased name. */
  lemma SinMayusculasSiYSoloSiAparece(s: string, sub: string)
    ensures ContieneSinMayusculas(s, sub) <==> exists i :: ApareceEn(Minusculas(s), Minusculas(sub), i)
  {
    ContieneSiYSoloSiAparece(Minusculas(s), Minusculas(sub));
  }

  /** An exact occurrence is also a case-insensitive one. */
  lemma {:induction false} ContieneImplicaSinMayusculas(s: string, sub: string)
    requires Contiene(s, sub)
    ensures ContieneSinMayusculas(s, sub)
    decreases |s|
  {
    if EsPrefijo(sub, s) {
      assert Minusculas(s)[..|sub|] == Minusculas(sub);
    } else {
      ContieneImplicaSinMayusculas(s[1..], sub);
      assert Minusculas(s)[1..] == Minusculas(s[1..]);
    }
  }

  // ---------------------------------------------------------------------
  // String.prototype.trim

  /** The WhiteSpace and LineTerminator code points of ECMAScript. */
  predicate EsEspacioJs(c: char)
  {
    c == ' ' || c == '\t' || c == '\n' || c == '\r' || c == '\U{000B}' || c == '\U{000C}'
    || c == '\U{00A0}' || c == '\U{1680}' || ('\U{2000}' <= c <= '\U{200A}')
    || c == '\U{2028}' || c == '\U{2029}' || c == '\U{202F}' || c == '\U{205F}'
    || c == '\U{3000}' || c == '\U{FEFF}'
  }

  /** Drops leading white space: the result is a suffix of `s` that does not start with white space. */
  function QuitarInicio(s: string): (r: string)
    ensures |r| <= |s| && r == s[|s| - |r|..]
    ensures forall i :: 0 <= i < |s| - |r| ==> EsEspacioJs(s[i])
    ensures r == [] || !EsEspacioJs(r[0])
    decreases |s|
  {
    if |s| > 0 && EsEspacioJs(s[0]) then QuitarInicio(s[1..]) else s
  }

  /** Drops trailing white space: the result is a prefix of `s` that does not end with white space. */
  function QuitarFinal(s: string): (r: string)
    ensures |r| <= |s| && r == s[..|r|]
    ensures forall i :: |r| <= i < |s| ==> EsEspacioJs(s[i])
    ensures r == [] || !EsEspacioJs(r[|r| - 1])
    decreases |s|
  {
    if |s| > 0 && EsEspacioJs(s[|s| - 1]) then QuitarFinal(s[..|s| - 1]) else s
  }

  /** A string with no white space at its start keeps it so when its end is trimmed. */
  lemma QuitarFinalConservaInicio(s: string)
    requires s == [] || !EsEspacioJs(s[0])
    ensures QuitarFinal(s) == [] || !EsEspacioJs(QuitarFinal(s)[0])
  {
  }

  /**
   * Cutting a suffix `t` off `s` and then a prefix `r` off `t` that leaves
   * only white space behind: `r` is a slice of `s` followed only by white space.
   */
  lemma RecorteDeRecorte(s: string, t: string, r: string)
    requires |t| <= |s| && t == s[|s| - |t|..]
    requires |r| <= |t| && r == t[..|r|]
    requires forall i :: |r| <= i < |t| ==> EsEspacioJs(t[i])
    ensures var k := |s| - |t|;
      && k + |r| <= |s|
      && (forall i :: 0 <= i < |r| ==> r[i] == s[k + i])
      && (forall i :: k + |r| <= i < |s| ==> EsEspacioJs(s[i]))
  {
    var k := |s| - |t|;
    forall i | 0 <= i < |r| ensures r[i] == s[k + i] {
      assert r[i] == t[i];
    }
    forall i | k + |r| <= i < |s| ensures EsEspacioJs(s[i]) {
      assert s[i] == t[i - k];
    }
  }

  /**
   * `s.trim()`: neither end of the result is white space, the result is the
   * part of `s` from the first non-white-space character on, and everything
   * of `s` around it is white space.
   */
  function Trim(s: string): (r: string)
    ensures r == [] || (!EsEspacioJs(r[0]) && !EsEspacioJs(r[|r| - 1]))
    ensures var k := |s| - |QuitarInicio(s)|;
      && k + |r| <= |s|
      && r <= s[k..]
      && (forall i :: 0 <= i < k ==> EsEspacioJs(s[i]))
      && (forall i :: k + |r| <= i < |s| ==> EsEspacioJs(s[i]))
  {
    var t := QuitarInicio(s);
    var r := QuitarFinal(t);
    QuitarFinalConservaInicio(t);
    RecorteDeRecorte(s, t, r);
    r
  }

  /** A string already free of white space at both ends is left as it is. */
  lemma {:induction false} TrimSinBordes(s: string)
    requires s == [] || (!EsEspacioJs(s[0]) && !EsEspacioJs(s[|s| - 1]))
    ensures Trim(s) == s
  {
  }

  /** Trimming twice is trimming once. */
  lemma TrimIdempotente(s: string)
    ensures Trim(Trim(s)) == Trim(s)
  {
    TrimSinBordes(Trim(s));
  }

  // ---------------------------------------------------------------------
  // parseInt(s) with no radix argument

  /** The value of `c` as a digit in `base` (10 or 16), if it is one. */
  function Digito(c: char, base: nat): Option<nat>
  {
    var v: int :=
      if '0' <= c <= '9' then c as int - '0' as int
      else if 'a' <= c <= 'z' then c as int - 'a' as int + 10
      else if 'A' <= c <= 'Z' then c as int - 'A' as int + 10
      else -1;
    if 0 <= v < base then Some(v as nat) else None
  }

  /** The digit values of the longest prefix of `s` made of digits in `base`. */
  function DigitosIniciales(s: string, base: nat): seq<nat>
    decreases |s|
  {
    if |s| > 0 && Digito(s[0], base).Some? then [Digito(s[0], base).value] + DigitosIniciales(s[1..], base)
    else []
  }

  /** Positional value of a digit sequence, most significant first. */
  function ValorDigitos(ds: seq<nat>, base: nat): nat
    decreases |ds|
  {
    if ds == [] then 0 else ValorDigitos(ds[..|ds| - 1], base) * base + ds[|ds| - 1]
  }

  /** The sign of `parseInt` applied to what the digits are worth; NaN stays NaN. */
  function Negar(n: NumeroJs): NumeroJs
  {
    if n.NaN? then NaN else Entero(-n.valor)
  }

  /**
   * `parseInt` after the white space and the sign: a `0x`/`0X` prefix selects
   * base 16, then the longest run of digits is taken; with no digit at all
   * the result is NaN.
   */
  function LeerSinSigno(u: string): NumeroJs
  {
    var hex := |u| >= 2 && u[0] == '0' && (u[1] == 'x' || u[1] == 'X');
    var base := if hex then 16 else 10;
    var ds := DigitosIniciales(if hex then u[2..] else u, base);
    if ds == [] then NaN else Entero(ValorDigitos(ds, base))
  }

  /** `parseInt` after the white space: an optional `-` or `+`, then the digits. */
  function LeerConSigno(t: string): NumeroJs
  {
    if |t| > 0 && t[0] == '-' then Negar(LeerSinSigno(t[1..]))
    else if |t| > 0 && t[0] == '+' then LeerSinSigno(t[1..])
    else LeerSinSigno(t)
  }

  /**
   * The global `parseInt(s)` with no radix: leading white space is skipped
   * first. Nothing but white space, or a first other character that is
   * neither a sign nor a digit, gives NaN.
   */
  function ParseInt(s: string): (r: NumeroJs)
    ensures QuitarInicio(s) == [] ==> r == NaN
    ensures var t := QuitarInicio(s);
      |t| > 0 && Digito(t[0], 10).None? && t[0] != '-' && t[0] != '+' ==> r == NaN
  {
    LeerConSigno(QuitarInicio(s))
  }

  /** White space in front of a string is skipped as a whole. */
  lemma {:induction false} QuitarInicioTrasEspacios(ws: string, s: string)
    requires forall i :: 0 <= i < |ws| ==> EsEspacioJs(ws[i])
    ensures QuitarInicio(ws + s) == QuitarInicio(s)
    decreases |ws|
  {
    if ws != [] {
      assert (ws + s)[0] == ws[0];
      assert (ws + s)[1..] == ws[1..] + s;
      QuitarInicioTrasEspacios(ws[1..], s);
    } else {
      assert ws + s == s;
    }
  }

  /** `parseInt` ignores white space in front of the number. */
  lemma ParseIntIgnoraEspacios(ws: string, s: string)
    requires forall i :: 0 <= i < |ws| ==> EsEspacioJs(ws[i])
    ensures ParseInt(ws + s) == ParseInt(s)
  {
    QuitarInicioTrasEspacios(ws, s);
  }

  /** `parseInt` stops at the first character that is not a digit. */
  lemma ParseIntConResto()
    ensures ParseInt("12abc") == Entero(12)
  {
    var s := "12abc";
    SinEspacioInicial(s);
    assert DigitosIniciales(s, 10) == [1, 2] by {
      assert s[1..] == "2abc" && s[1..][1..] == "abc";
      assert DigitosIniciales("abc", 10) == [];
    }
    assert ValorDigitos([1, 2], 10) == 12 by {
      assert [1, 2][..1] == [1];
      assert [1][..0] == [];
    }
  }

  /** With no digit to read, `parseInt` gives NaN, also after a bare `0x`. */
  lemma ParseIntSinDigitos()
    ensures ParseInt("") == NaN
    ensures ParseInt("abc") == NaN
    ensures ParseInt("0x") == NaN
  {
    SinEspacioInicial("abc");
    SinEspacioInicial("0x");
    assert "0x"[2..] == "";
  }

  /** A sign and a `0x` prefix combine: `-0x1A` is -26. */
  lemma ParseIntHexadecimalNegativo()
    ensures ParseInt("-0x1A") == Entero(-26)
  {
    var s := "-0x1A";
    SinEspacioInicial(s);
    assert s[1..] == "0x1A" && s[1..][2..] == "1A";
    assert DigitosIniciales("1A", 16) == [1, 10] by {
      assert "1A"[1..] == "A" && "A"[1..] == "";
    }
    assert ValorDigitos([1, 10], 16) == 26 by {
      assert [1, 10][..1] == [1];
      assert [1][..0] == [];
    }
  }

  // ---------------------------------------------------------------------
  // Decimal rendering of an integer (`${n}` in a template literal)

  function CharDigito(d: nat): char
    requires d < 10
  {
    ('0' as int + d) as char
  }

  function NatADecimal(n: nat): (s: string)
    ensures |s| >= 1
    ensures forall i :: 0 <= i < |s| ==> '0' <= s[i] <= '9'
    decreases n
  {
    if n < 10 then [CharDigito(n)] else NatADecimal(n / 10) + [CharDigito(n % 10)]
  }

  function IntADecimal(n: int): string
  {
    if n < 0 then "-" + NatADecimal(-n) else NatADecimal(n)
  }

  /** Reading digits stops at the first non-digit: appending one digit to a run of digits appends its value. */
  lemma {:induction false} DigitosInicialesAlFinal(a: string, c: char)
    requires forall i :: 0 <= i < |a| ==> '0' <= a[i] <= '9'
    requires '0' <= c <= '9'
    ensures DigitosIniciales(a + [c], 10) == DigitosIniciales(a, 10) + [c as int - '0' as int]
    decreases |a|
  {
    if |a| == 0 {
      assert a + [c] == [c];
    } else {
      assert (a + [c])[1..] == a[1..] + [c];
      DigitosInicialesAlFinal(a[1..], c);
    }
  }

  /** The decimal digits of `n`, read back, are worth `n`. */
  lemma {:induction false} ValorDeNatADecimal(n: nat)
    ensures DigitosIniciales(NatADecimal(n), 10) != []
    ensures ValorDigitos(DigitosIniciales(NatADecimal(n), 10), 10) == n
    decreases n
  {
    if n < 10 {
      assert NatADecimal(n) == [CharDigito(n)];
      assert NatADecimal(n)[1..] == [];
    } else {
      ValorDeNatADecimal(n / 10);
      DigitosInicialesAlFinal(NatADecimal(n / 10), CharDigito(n % 10));
      var ds := DigitosIniciales(NatADecimal(n / 10), 10);
      assert (ds + [n % 10])[..|ds|] == ds;
    }
  }

  /** A digit is not white space, a sign or the `x` of a hexadecimal prefix. */
  lemma DigitoNoEsEspacio(c: char)
    requires '0' <= c <= '9'
    ensures !EsEspacioJs(c) && c != '-' && c != '+' && c != 'x' && c != 'X'
  {
  }

  /** A string that does not start with white space has none to skip. */
  lemma SinEspacioInicial(s: string)
    requires |s| > 0 && !EsEspacioJs(s[0])
    ensures QuitarInicio(s) == s
  {
  }

  /** The digits of a natural number, with no sign in front, are read as that number. */
  lemma LeerSinSignoDecimal(n: nat)
    ensures LeerSinSigno(NatADecimal(n)) == Entero(n)
  {
    var d := NatADecimal(n);
    ValorDeNatADecimal(n);
    if |d| >= 2 {
      DigitoNoEsEspacio(d[1]);
    }
  }

  /** `parseInt` reads back every natural number written in decimal. */
  lemma ParseIntDeNatural(n: nat)
    ensures ParseInt(NatADecimal(n)) == Entero(n)
  {
    var d := NatADecimal(n);
    DigitoNoEsEspacio(d[0]);
    SinEspacioInicial(d);
    LeerSinSignoDecimal(n);
  }

  /** `parseInt` reads back a negative number written in decimal. */
  lemma ParseIntDeNegativo(m: nat)
    requires m > 0
    ensures ParseInt("-" + NatADecimal(m)) == Entero(-(m as int))
  {
    var s := "-" + NatADecimal(m);
    assert s[0] == '-' && s[1..] == NatADecimal(m);
    SinEspacioInicial(s);
    LeerSinSignoDecimal(m);
  }

  /** `parseInt` reads back every integer written in decimal, negative ones included. */
  lemma ParseIntDeDecimal(n: int)
    ensures ParseInt(IntADecimal(n)) == Entero(n)
  {
    if n >= 0 {
      ParseIntDeNatural(n);
    } else {
      ParseIntDeNegativo(-n);
    }
  }
}
