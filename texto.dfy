/**
 * The text format of arquivos.c: the line `salvar_colecao_texto` prints for
 * a record, the way `fgets` cuts a file into lines, and the `sscanf` pattern
 * `carregar_colecao_texto` parses each line with.
 */
module FormatoTexto {
  import opened Wrappers
  import opened CStrings
  import opened Livros
  import opened ListaLivros

  // ---------------------------------------------------------------------
  // Writing: `fprintf(arquivo, "\"%s\",\"%s\",%d,\"%s\",\"%s\"\n", ...)`

  predicate EhDigito(c: char) {
    '0' <= c <= '9'
  }

  function Digito(d: nat): (c: char)
    requires d < 10
    ensures EhDigito(c) && c as int - '0' as int == d
  {
    ('0' as int + d) as char
  }

  /** The decimal digits of `n`, most significant first, without leading zeros. */
  function Natural(n: nat): (r: string)
    ensures |r| >= 1
    ensures forall i :: 0 <= i < |r| ==> EhDigito(r[i])
  {
    if n < 10 then [Digito(n)] else Natural(n / 10) + [Digito(n % 10)]
  }

  /** `%d` output: a minus sign for negative values, then the digits of the magnitude. */
  function Decimal(n: int): (r: string)
    ensures |r| >= 1
    ensures r[0] == '-' <==> n < 0
    ensures forall j :: 0 <= j < |r| ==> r[j] == '-' || EhDigito(r[j])
    ensures forall j :: 1 <= j < |r| ==> EhDigito(r[j])
  {
    if n < 0 then "-" + Natural(-n) else Natural(n)
  }

  function Aspas(s: string): string {
    "\"" + s + "\""
  }

  /**
   * The line `salvar_colecao_texto` writes for one record: the four string
   * fields in quotes and the year in decimal, separated by commas, plus 13
   * characters of punctuation (eight quotes, four commas and the newline).
   */
  function FormatarLinha(l: Livro): (r: string)
    ensures |r| == |l.titulo| + |l.autor| + |Decimal(l.anoPublicacao)| + |l.isbn| + |l.genero| + 13
    ensures r[0] == '"' && r[|r| - 1] == '\n'
    ensures r[..|l.titulo| + 1] == "\"" + l.titulo
  {
    Aspas(l.titulo) + ("," + (Aspas(l.autor) + ("," + (Decimal(l.anoPublicacao) +
      ("," + (Aspas(l.isbn) + ("," + (Aspas(l.genero) + "\n"))))))))
  }

  /** The whole file: one line per record, in list order; empty exactly for an empty list, else ending in a newline. */
  function TextoColecao(ls: seq<Livro>): (r: string)
    ensures r == [] <==> ls == []
    ensures ls != [] ==> r[|r| - 1] == '\n'
  {
    if ls == [] then "" else FormatarLinha(ls[0]) + TextoColecao(ls[1..])
  }

  /** Concatenating lists concatenates their text. */
  lemma {:induction false} TextoColecaoConcat(a: seq<Livro>, b: seq<Livro>)
    ensures TextoColecao(a + b) == TextoColecao(a) + TextoColecao(b)
  {
    if a == [] {
      assert a + b == b;
    } else {
      assert (a + b)[0] == a[0] && (a + b)[1..] == a[1..] + b;
      TextoColecaoConcat(a[1..], b);
      Reassociar(FormatarLinha(a[0]), TextoColecao(a[1..]), TextoColecao(b));
    }
  }

  lemma Reassociar<T>(x: seq<T>, y: seq<T>, z: seq<T>)
    ensures x + (y + z) == (x + y) + z
  {
  }

  lemma TextoColecaoPasso(ls: seq<Livro>, i: nat)
    requires i < |ls|
    ensures TextoColecao(ls[..i + 1]) == TextoColecao(ls[..i]) + FormatarLinha(ls[i])
  {
    PrefixoPasso(ls, i);
    TextoColecaoConcat(ls[..i], [ls[i]]);
    TextoColecaoUm(ls[i]);
  }

  lemma TextoColecaoUm(l: Livro)
    ensures TextoColecao([l]) == FormatarLinha(l)
  {
    assert [l][1..] == [];
    assert TextoColecao([]) == [];
  }

  // ---------------------------------------------------------------------
  // Reading lines: `fgets(linha, 512, arquivo)`

  /** Size of the line buffer of `carregar_colecao_texto`. */
  const TAM_LINHA: nat := 512

  /**
   * How many characters one `fgets` call with room for `max` characters
   * takes: up to and including the first newline, at most `max`, at most
   * what is left.
   */
  function TamanhoFgets(s: string, max: nat): (n: nat)
    requires s != [] && max >= 1
    ensures 1 <= n <= max && n <= |s|
    ensures forall j :: 0 <= j < n - 1 ==> s[j] != '\n'
    ensures s[n - 1] == '\n' || n == max || n == |s|
  {
    if s[0] == '\n' || max == 1 || |s| == 1 then 1 else 1 + TamanhoFgets(s[1..], max - 1)
  }

  /** The strings of `pedacos` one after another. */
  function Juntar(pedacos: seq<string>): string {
    if pedacos == [] then "" else pedacos[0] + Juntar(pedacos[1..])
  }

  /** What one `fgets` call can fill: 1 to 511 characters, a newline only as the last. */
  predicate Pedaco(p: string) {
    1 <= |p| <= TAM_LINHA - 1 && forall j :: 0 <= j < |p| - 1 ==> p[j] != '\n'
  }

  /**
   * The successive buffers `fgets` fills until it reports end of file:
   * pieces each ending at its first newline if it has one, that together
   * are the whole file.
   */
  function Linhas(s: string): (r: seq<string>)
    ensures forall k :: 0 <= k < |r| ==> Pedaco(r[k])
    ensures Juntar(r) == s
    decreases |s|
  {
    if s == [] then []
    else
      var n := TamanhoFgets(s, TAM_LINHA - 1);
      var resto := Linhas(s[n..]);
      var r := [s[..n]] + resto;
      assert r[0] == s[..n] && r[1..] == resto;
      assert Juntar(r) == s[..n] + Juntar(resto);
      assert s == s[..n] + s[n..];
      r
  }

  // ---------------------------------------------------------------------
  // Parsing: `sscanf(linha, "\"%99[^\"]\",\"%99[^\"]\",%d,\"%13[^\"]\",\"%49[^\"]\"", ...)`

  /** A converted value and the input left after it. */
  datatype Leitura<T> = Leitura(valor: T, resto: string)

  /** An ordinary character of the format: it must be the next input character. */
  function Literal(c: char, s: string): (r: Option<string>)
    ensures r.Some? <==> s != [] && s[0] == c
    ensures r.Some? ==> r.value == s[1..]
  {
    if s != [] && s[0] == c then Some(s[1..]) else None
  }

  /** Length of the longest prefix of `s`, at most `largura` long, without a `"`. */
  function PrefixoSemAspas(s: string, largura: nat): (k: nat)
    ensures k <= largura && k <= |s|
    ensures forall j :: 0 <= j < k ==> s[j] != '"'
    ensures k == largura || k == |s| || s[k] == '"'
  {
    if s == [] || largura == 0 || s[0] == '"' then 0 else 1 + PrefixoSemAspas(s[1..], largura - 1)
  }

  /** `%<largura>[^"]`: at least one and at most `largura` characters other than `"`. */
  function Conjunto(largura: nat, s: string): (r: Option<Leitura<string>>)
    ensures r.Some? ==> 1 <= |r.value.valor| <= largura && '"' !in r.value.valor
    ensures r.Some? ==> s == r.value.valor + r.value.resto
    ensures r.None? <==> s == [] || s[0] == '"' || largura == 0
  {
    var k := PrefixoSemAspas(s, largura);
    if k == 0 then None else Some(Leitura(s[..k], s[k..]))
  }

  /** The characters `isspace` accepts in the C locale: space, `\t`, `\n`, `\v`, `\f`, `\r`. */
  predicate EhEspaco(c: char) {
    c == ' ' || 9 <= c as int <= 13
  }

  function SaltarEspacos(s: string): (r: string)
    ensures |r| <= |s| && r == s[|s| - |r|..]
    ensures r == [] || !EhEspaco(r[0])
  {
    if s != [] && EhEspaco(s[0]) then SaltarEspacos(s[1..]) else s
  }

  /** Length of the longest prefix of decimal digits. */
  function PrefixoDigitos(s: string): (k: nat)
    ensures k <= |s|
    ensures forall j :: 0 <= j < k ==> EhDigito(s[j])
    ensures k == |s| || !EhDigito(s[k])
  {
    if s == [] || !EhDigito(s[0]) then 0 else 1 + PrefixoDigitos(s[1..])
  }

  /** The value of a string of decimal digits. */
  function ValorDigitos(d: string): nat
    requires forall j :: 0 <= j < |d| ==> EhDigito(d[j])
  {
    if d == [] then 0
    else
      var c := d[|d| - 1];
      assert EhDigito(c);
      ValorDigitos(d[..|d| - 1]) * 10 + (c as int - '0' as int)
  }

  /**
   * `%d`: leading white space skipped, an optional sign, then at least one
   * digit. The value is kept as an unbounded integer. What is left is a
   * proper suffix of the input: at least one digit was consumed.
   */
  function Inteiro(s: string): (r: Option<Leitura<int>>)
    ensures r.Some? ==> RestoProprio(r.value.resto, s)
    ensures SaltarEspacos(s) == [] ==> r.None?
  {
    var t := SaltarEspacos(s);
    var r := InteiroComSinal(t);
    if r.Some? then
      SufixoDeSufixo(s, t, r.value.resto);
      r
    else r
  }

  /** `u` is what is left of `s` after a conversion that consumed at least one character. */
  predicate RestoProprio(u: string, s: string) {
    |u| < |s| && u == s[|s| - |u|..]
  }

  /** Skipping white space before a conversion still leaves a proper suffix of the whole input. */
  lemma SufixoDeSufixo(s: string, t: string, u: string)
    requires |t| <= |s| && t == s[|s| - |t|..]
    requires RestoProprio(u, t)
    ensures RestoProprio(u, s)
  {
  }

  function InteiroComSinal(t: string): (r: Option<Leitura<int>>)
    ensures r.Some? ==> RestoProprio(r.value.resto, t)
  {
    var negativo := t != [] && t[0] == '-';
    var u := if t != [] && (t[0] == '-' || t[0] == '+') then t[1..] else t;
    match Digitos(u)
    case None => None
    case Some(d) =>
      var v: int := d.valor;
      Some(Leitura(if negativo then -v else v, d.resto))
  }

  /** At least one decimal digit, and the value of all the digits that follow. */
  function Digitos(u: string): (r: Option<Leitura<nat>>)
    ensures r.None? <==> u == [] || !EhDigito(u[0])
    ensures r.Some? ==> RestoProprio(r.value.resto, u)
    ensures r.Some? ==> r.value.resto == [] || !EhDigito(r.value.resto[0])
  {
    var k := PrefixoDigitos(u);
    if k == 0 then None else Some(Leitura(ValorDigitos(u[..k]), u[k..]))
  }

  /** `"%<largura>[^"]"`: a field in quotes. */
  function CampoAspas(largura: nat, s: string): (r: Option<Leitura<string>>)
    ensures r.Some? ==> 1 <= |r.value.valor| <= largura && '"' !in r.value.valor
  {
    var s0 :- Literal('"', s);
    var f :- Conjunto(largura, s0);
    var s1 :- Literal('"', f.resto);
    Some(Leitura(f.valor, s1))
  }

  /**
   * The record `sscanf` fills when it assigns all five fields (the line is
   * kept), or None when it assigns fewer (the line is skipped). `sscanf`
   * reads the buffer up to its first NUL. The quote after the genre comes
   * after the last conversion, so nothing checks it.
   */
  function AnalisarLinha(linha: string): (r: Option<Livro>)
    ensures r.Some? ==> 1 <= |r.value.titulo| <= TAM_TITULO - 1 && '"' !in r.value.titulo
    ensures r.Some? ==> 1 <= |r.value.autor| <= TAM_AUTOR - 1 && '"' !in r.value.autor
    ensures r.Some? ==> 1 <= |r.value.isbn| <= TAM_ISBN - 1 && '"' !in r.value.isbn
    ensures r.Some? ==> 1 <= |r.value.genero| <= TAM_GENERO - 1 && '"' !in r.value.genero
  {
    var s := AteNul(linha);
    var t :- CampoAspas(TAM_TITULO - 1, s);
    var s1 :- Literal(',', t.resto);
    var a :- CampoAspas(TAM_AUTOR - 1, s1);
    var s2 :- Literal(',', a.resto);
    AnalisarCauda(t.valor, a.valor, s2)
  }

  /** The conversions after the author: `%d,"%13[^"]","%49[^"]`. */
  function AnalisarCauda(titulo: string, autor: string, s: string): (r: Option<Livro>)
    ensures r.Some? ==> r.value.titulo == titulo && r.value.autor == autor
    ensures r.Some? ==> 1 <= |r.value.isbn| <= TAM_ISBN - 1 && '"' !in r.value.isbn
    ensures r.Some? ==> 1 <= |r.value.genero| <= TAM_GENERO - 1 && '"' !in r.value.genero
  {
    var y :- Inteiro(s);
    var s3 :- Literal(',', y.resto);
    var i :- CampoAspas(TAM_ISBN - 1, s3);
    var s4 :- Literal(',', i.resto);
    var s5 :- Literal('"', s4);
    var g :- Conjunto(TAM_GENERO - 1, s5);
    Some(Livro(titulo, autor, y.valor, i.valor, g.valor))
  }

  /** The string fields every accepted line yields: non-empty, without `"`, within the widths of the pattern. */
  predicate CamposLidos(l: Livro) {
    && 1 <= |l.titulo| <= TAM_TITULO - 1 && '"' !in l.titulo
    && 1 <= |l.autor| <= TAM_AUTOR - 1 && '"' !in l.autor
    && 1 <= |l.isbn| <= TAM_ISBN - 1 && '"' !in l.isbn
    && 1 <= |l.genero| <= TAM_GENERO - 1 && '"' !in l.genero
  }

  /** The records of the lines `sscanf` accepts, in file order: at most one per line. */
  function Aceitas(linhas: seq<string>): (r: seq<Livro>)
    ensures |r| <= |linhas|
    ensures forall k :: 0 <= k < |r| ==> CamposLidos(r[k])
  {
    if linhas == [] then []
    else
      match AnalisarLinha(linhas[0])
      case Some(l) => [l] + Aceitas(linhas[1..])
      case None => Aceitas(linhas[1..])
  }

  /**
   * The read loop of `carregar_colecao_texto` over the list's records:
   * each accepted line is inserted at the head of `base`. Nothing of `base`
   * is lost: it stays, unchanged, at the end, behind at most one record
   * per line.
   */
  function CarregarLinhas(base: seq<Livro>, linhas: seq<string>): (r: seq<Livro>)
    ensures |r| <= |base| + |linhas|
    ensures TerminaCom(r, base)
    decreases |linhas|
  {
    if linhas == [] then base
    else
      match AnalisarLinha(linhas[0])
      case Some(l) =>
        var r := CarregarLinhas([l] + base, linhas[1..]);
        TerminaComCauda(r, l, base);
        r
      case None => CarregarLinhas(base, linhas[1..])
  }

  // ---------------------------------------------------------------------
  // Numbers: `%d` reads back what `%d` prints

  lemma {:induction false} ValorNatural(n: nat)
    ensures ValorDigitos(Natural(n)) == n
  {
    if n >= 10 {
      var r := Natural(n);
      assert r[..|r| - 1] == Natural(n / 10);
      ValorNatural(n / 10);
    }
  }

  lemma {:induction false} PrefixoDigitosConcat(d: string, r: string)
    requires forall j :: 0 <= j < |d| ==> EhDigito(d[j])
    requires r == [] || !EhDigito(r[0])
    ensures PrefixoDigitos(d + r) == |d|
  {
    if d == [] {
      assert d + r == r;
    } else {
      assert (d + r)[1..] == d[1..] + r;
      PrefixoDigitosConcat(d[1..], r);
    }
  }

  lemma DigitosNatural(m: nat, resto: string)
    requires resto == [] || !EhDigito(resto[0])
    ensures Digitos(Natural(m) + resto) == Some(Leitura(m, resto))
  {
    var d := Natural(m);
    PrefixoDigitosConcat(d, resto);
    ValorNatural(m);
    assert (d + resto)[..|d|] == d;
    assert (d + resto)[|d|..] == resto;
  }

  /** `%d` gives back the value `%d` printed, and stops before the next non-digit. */
  lemma InteiroDecimal(n: int, resto: string)
    requires resto == [] || !EhDigito(resto[0])
    ensures Inteiro(Decimal(n) + resto) == Some(Leitura(n, resto))
  {
    if n < 0 {
      InteiroDecimalNegativo(n, resto);
    } else {
      DigitosNatural(n, resto);
      InteiroPositivo(Natural(n), n, resto);
    }
  }

  lemma InteiroDecimalNegativo(n: int, resto: string)
    requires n < 0
    requires resto == [] || !EhDigito(resto[0])
    ensures Inteiro(Decimal(n) + resto) == Some(Leitura(n, resto))
  {
    InteiroNaturalNegativo(-n, resto, Decimal(n) + resto);
  }

  lemma InteiroNaturalNegativo(m: nat, resto: string, t: string)
    requires resto == [] || !EhDigito(resto[0])
    requires t == "-" + Natural(m) + resto
    ensures Inteiro(t) == Some(Leitura(-(m as int), resto))
  {
    DigitosNatural(m, resto);
    InteiroNegativo(Natural(m), m, resto, t);
  }

  lemma InteiroNegativo(d: string, m: nat, resto: string, t: string)
    requires Digitos(d + resto) == Some(Leitura(m, resto))
    requires t == "-" + d + resto
    ensures Inteiro(t) == Some(Leitura(-(m as int), resto))
  {
    assert t[0] == '-';
    assert SaltarEspacos(t) == t;
    var u := t[1..];
    assert u == d + resto;
    assert Digitos(u) == Some(Leitura(m, resto));
  }

  lemma InteiroPositivo(d: string, m: nat, resto: string)
    requires d != [] && EhDigito(d[0])
    requires Digitos(d + resto) == Some(Leitura(m, resto))
    ensures Inteiro(d + resto) == Some(Leitura(m as int, resto))
  {
    var t := d + resto;
    assert t[0] == d[0];
    assert SaltarEspacos(t) == t;
  }

  function Pot10(k: nat): nat {
    if k == 0 then 1 else 10 * Pot10(k - 1)
  }

  lemma {:induction false} NaturalCurto(n: nat, k: nat)
    requires 1 <= k && n < Pot10(k)
    ensures |Natural(n)| <= k
  {
    if n >= 10 {
      NaturalCurto(n / 10, k - 1);
    }
  }

  /** A C `int` prints in at most 11 characters. */
  lemma DecimalCurto(n: int)
    requires INT_MIN <= n <= INT_MAX
    ensures |Decimal(n)| <= 11
  {
    assert Pot10(10) == 10_000_000_000;
    NaturalCurto(if n < 0 then -n else n, 10);
  }

  lemma DecimalSimbolos(n: int)
    ensures Decimal(n) != []
    ensures forall j :: 0 <= j < |Decimal(n)| ==> Decimal(n)[j] == '-' || EhDigito(Decimal(n)[j])
  {
  }

  // ---------------------------------------------------------------------
  // One line: parsing what was printed

  /** A string field `sscanf` can read back: a C string that fits, without `"`. */
  predicate CampoSeguro(s: string, capacidade: nat) {
    CString(s) && |s| <= capacidade - 1 && '"' !in s
  }

  predicate CamposSeguros(l: Livro) {
    && CampoSeguro(l.titulo, TAM_TITULO)
    && CampoSeguro(l.autor, TAM_AUTOR)
    && CampoSeguro(l.isbn, TAM_ISBN)
    && CampoSeguro(l.genero, TAM_GENERO)
  }

  predicate CamposNaoVazios(l: Livro) {
    l.titulo != [] && l.autor != [] && l.isbn != [] && l.genero != []
  }

  lemma {:induction false} PrefixoSemAspasCampo(f: string, r: string, largura: nat)
    requires '"' !in f && |f| <= largura
    requires r != [] && r[0] == '"'
    ensures PrefixoSemAspas(f + r, largura) == |f|
  {
    if f == [] {
      assert f + r == r;
    } else {
      assert (f + r)[0] == f[0];
      assert (f + r)[1..] == f[1..] + r;
      PrefixoSemAspasCampo(f[1..], r, largura - 1);
    }
  }

  /** `%[^"]` on a field followed by its closing quote reads exactly the field, if it is not empty. */
  lemma ConjuntoCampo(largura: nat, f: string, r: string)
    requires '"' !in f && |f| <= largura
    requires r != [] && r[0] == '"'
    ensures Conjunto(largura, f + r) == if f == [] then None else Some(Leitura(f, r))
  {
    PrefixoSemAspasCampo(f, r, largura);
    assert (f + r)[..|f|] == f;
    assert (f + r)[|f|..] == r;
  }

  lemma CampoAspasFormatado(largura: nat, f: string, resto: string)
    requires '"' !in f && |f| <= largura
    ensures CampoAspas(largura, Aspas(f) + resto) == if f == [] then None else Some(Leitura(f, resto))
  {
    var s := Aspas(f) + resto;
    assert s[1..] == f + ("\"" + resto);
    ConjuntoCampo(largura, f, "\"" + resto);
    assert ("\"" + resto)[1..] == resto;
  }

  lemma SemNul(s: string)
    requires CString(s)
    ensures '\0' !in s
  {
  }

  lemma LinhaSemNul(l: Livro)
    requires CString(l.titulo) && CString(l.autor) && CString(l.isbn) && CString(l.genero)
    ensures '\0' !in FormatarLinha(l)
  {
    SemNul(l.titulo);
    SemNul(l.autor);
    SemNul(l.isbn);
    SemNul(l.genero);
    DecimalSimbolos(l.anoPublicacao);
  }

  /**
   * Parsing the line printed for a record whose string fields are
   * quote-free C strings that fit gives the record back exactly when no
   * string field is empty, and rejects the line otherwise.
   */
  lemma {:induction false} AnalisarFormatada(l: Livro)
    requires CamposSeguros(l)
    ensures AnalisarLinha(FormatarLinha(l)) == if CamposNaoVazios(l) then Some(l) else None
  {
    var cauda := Decimal(l.anoPublicacao) + ("," + (Aspas(l.isbn) + ("," + (Aspas(l.genero) + "\n"))));
    var r1 := "," + (Aspas(l.autor) + ("," + cauda));
    var linha := Aspas(l.titulo) + r1;
    LinhaSemNul(l);
    assert AteNul(linha) == linha;
    CampoAspasFormatado(TAM_TITULO - 1, l.titulo, r1);
    LiteralInicio(',', Aspas(l.autor) + ("," + cauda));
    CampoAspasFormatado(TAM_AUTOR - 1, l.autor, "," + cauda);
    LiteralInicio(',', cauda);
    CaudaFormatada(l);
  }

  lemma CaudaFormatada(l: Livro)
    requires CamposSeguros(l)
    ensures AnalisarCauda(l.titulo, l.autor, Decimal(l.anoPublicacao) + ("," + (Aspas(l.isbn) + ("," + (Aspas(l.genero) + "\n")))))
      == if l.isbn != [] && l.genero != [] then Some(l) else None
  {
    var g := Aspas(l.genero) + "\n";
    var r4 := "," + g;
    var r3 := "," + (Aspas(l.isbn) + r4);
    InteiroDecimal(l.anoPublicacao, r3);
    LiteralInicio(',', Aspas(l.isbn) + r4);
    CampoAspasFormatado(TAM_ISBN - 1, l.isbn, r4);
    if l.isbn != [] {
      LiteralInicio(',', g);
      AbreAspas(l.genero, "\n");
      ConjuntoCampo(TAM_GENERO - 1, l.genero, "\"" + "\n");
    }
  }

  lemma AbreAspas(f: string, resto: string)
    ensures Literal('"', Aspas(f) + resto) == Some(f + ("\"" + resto))
  {
    assert (Aspas(f) + resto)[1..] == f + ("\"" + resto);
  }

  lemma LiteralInicio(c: char, x: string)
    ensures Literal(c, [c] + x) == Some(x)
  {
    assert ([c] + x)[1..] == x;
  }

  // ---------------------------------------------------------------------
  // Whole files

  /** A record that survives a text save and reload unchanged. */
  predicate Gravavel(l: Livro) {
    && CamposSeguros(l)
    && CamposNaoVazios(l)
    && '\n' !in l.titulo && '\n' !in l.autor && '\n' !in l.isbn && '\n' !in l.genero
    && INT_MIN <= l.anoPublicacao <= INT_MAX
  }

  /** The printed line fits the 512-byte buffer and its only newline is the last character. */
  lemma LinhaFormatada(l: Livro)
    requires Gravavel(l)
    ensures |FormatarLinha(l)| <= TAM_LINHA - 1
    ensures FimDeLinha(FormatarLinha(l))
  {
    DecimalCurto(l.anoPublicacao);
    DecimalSimbolos(l.anoPublicacao);
    var d := Decimal(l.anoPublicacao);
    assert '\n' !in d;
    AspasSemNovaLinha(l.titulo);
    AspasSemNovaLinha(l.autor);
    AspasSemNovaLinha(l.isbn);
    AspasSemNovaLinha(l.genero);
    var t6 := Aspas(l.genero) + "\n";
    PrefixarSemNovaLinha(Aspas(l.genero), "\n");
    var t5 := "," + t6;
    PrefixarSemNovaLinha(",", t6);
    var t4 := Aspas(l.isbn) + t5;
    PrefixarSemNovaLinha(Aspas(l.isbn), t5);
    var t3 := "," + t4;
    PrefixarSemNovaLinha(",", t4);
    var t2 := d + t3;
    PrefixarSemNovaLinha(d, t3);
    var t1 := "," + t2;
    PrefixarSemNovaLinha(",", t2);
    var t0 := Aspas(l.autor) + t1;
    PrefixarSemNovaLinha(Aspas(l.autor), t1);
    var u := "," + t0;
    PrefixarSemNovaLinha(",", t0);
    PrefixarSemNovaLinha(Aspas(l.titulo), u);
  }

  /** A line that ends in its only newline. */
  predicate FimDeLinha(x: string) {
    |x| >= 1 && x[|x| - 1] == '\n' && '\n' !in x[..|x| - 1]
  }

  lemma PrefixarSemNovaLinha(a: string, b: string)
    requires '\n' !in a && FimDeLinha(b)
    ensures FimDeLinha(a + b)
  {
    var x := a + b;
    assert x[..|x| - 1] == a + b[..|b| - 1];
  }

  lemma AspasSemNovaLinha(s: string)
    requires '\n' !in s
    ensures '\n' !in Aspas(s)
  {
    assert forall j :: 0 <= j < |Aspas(s)| ==> Aspas(s)[j] == '"' || Aspas(s)[j] == s[j - 1];
  }

  /** `fgets` returns a line that ends in its only newline and fits the buffer as one piece. */
  lemma LinhasConcat(x: string, resto: string)
    requires |x| <= TAM_LINHA - 1 && FimDeLinha(x)
    ensures Linhas(x + resto) == [x] + Linhas(resto)
  {
    var s := x + resto;
    var n := TamanhoFgets(s, TAM_LINHA - 1);
    assert forall j :: 0 <= j < |x| - 1 ==> s[j] == x[..|x| - 1][j];
    assert s[|x| - 1] == '\n';
    assert n == |x|;
    assert s[..n] == x;
    assert s[n..] == resto;
  }

  /** The records a text save writes are read back, in file order, exactly. */
  lemma {:induction false} AceitasTexto(ls: seq<Livro>)
    requires forall k :: 0 <= k < |ls| ==> Gravavel(ls[k])
    ensures Aceitas(Linhas(TextoColecao(ls))) == ls
  {
    if ls != [] {
      assert TextoColecao(ls) == FormatarLinha(ls[0]) + TextoColecao(ls[1..]);
      AceitasLinha(ls[0], TextoColecao(ls[1..]));
      AceitasTexto(ls[1..]);
      assert ls == [ls[0]] + ls[1..];
    }
  }

  /** The line printed for one record is read as one line and accepted as that record. */
  lemma AceitasLinha(l: Livro, resto: string)
    requires Gravavel(l)
    ensures Aceitas(Linhas(FormatarLinha(l) + resto)) == [l] + Aceitas(Linhas(resto))
  {
    var x := FormatarLinha(l);
    LinhaFormatada(l);
    LinhasConcat(x, resto);
    AnalisarFormatada(l);
    AceitasPasso(x, Linhas(resto), l);
  }

  lemma AceitasPasso(x: string, linhas: seq<string>, l: Livro)
    requires AnalisarLinha(x) == Some(l)
    ensures Aceitas([x] + linhas) == [l] + Aceitas(linhas)
  {
    assert ([x] + linhas)[1..] == linhas;
  }

  /** Loading inserts every accepted record at the head, so the loaded records end up in reverse file order. */
  lemma {:induction false} CarregarLinhasInverte(base: seq<Livro>, linhas: seq<string>)
    ensures CarregarLinhas(base, linhas) == Inverter(Aceitas(linhas)) + base
    decreases |linhas|
  {
    if linhas != [] {
      match AnalisarLinha(linhas[0])
      case Some(l) =>
        CarregarLinhasInverte([l] + base, linhas[1..]);
        assert Aceitas(linhas) == [l] + Aceitas(linhas[1..]);
        assert Inverter(Aceitas(linhas)) == Inverter(Aceitas(linhas[1..])) + [l];
      case None =>
        CarregarLinhasInverte(base, linhas[1..]);
    }
  }

  /**
   * Round trip: loading the text a save wrote for `ls` into a list `base`
   * puts the records of `ls`, in reverse order, in front of `base`.
   */
  lemma RecarregarTexto(ls: seq<Livro>, base: seq<Livro>)
    requires forall k :: 0 <= k < |ls| ==> Gravavel(ls[k])
    ensures CarregarLinhas(base, Linhas(TextoColecao(ls))) == Inverter(ls) + base
  {
    AceitasTexto(ls);
    CarregarLinhasInverte(base, Linhas(TextoColecao(ls)));
  }

  lemma {:induction false} PrefixoSemAspasAte(u: string, largura: nat, k: nat)
    requires k < |u| && u[k] == '"' && forall j :: 0 <= j < k ==> u[j] != '"'
    ensures PrefixoSemAspas(u, largura) == if k < largura then k else largura
  {
    if k > 0 && largura > 0 {
      PrefixoSemAspasAte(u[1..], largura - 1, k - 1);
    }
  }

  /**
   * A `"` inside the title ends the `%99[^"]` conversion early, and what
   * follows it cannot be the `","` the format expects (it is neither a
   * comma nor, for a quote at the end, anything but the closing quote), so
   * the line is rejected.
   */
  lemma AspaNoTituloRejeitada(l: Livro, k: nat)
    requires CString(l.titulo) && CString(l.autor) && CString(l.isbn) && CString(l.genero)
    requires k < |l.titulo| && l.titulo[k] == '"' && '"' !in l.titulo[..k]
    requires k + 1 < |l.titulo| ==> l.titulo[k + 1] != ','
    ensures AnalisarLinha(FormatarLinha(l)) == None
  {
    var r1 := "," + (Aspas(l.autor) + ("," + (Decimal(l.anoPublicacao) +
      ("," + (Aspas(l.isbn) + ("," + (Aspas(l.genero) + "\n")))))));
    var linha := Aspas(l.titulo) + r1;
    LinhaSemNul(l);
    assert AteNul(linha) == linha;
    TituloCortado(l.titulo, r1, k);
  }

  /** On the quoted title, either `"%99[^"]"` fails or the `,` after it does not match. */
  lemma TituloCortado(t: string, r1: string, k: nat)
    requires k < |t| && t[k] == '"' && '"' !in t[..k]
    requires k + 1 < |t| ==> t[k + 1] != ','
    ensures match CampoAspas(TAM_TITULO - 1, Aspas(t) + r1)
      case None => true
      case Some(c) => Literal(',', c.resto).None?
  {
    AbreAspas(t, r1);
    var u := t + ("\"" + r1);
    assert forall j :: 0 <= j < k ==> u[j] == t[..k][j];
    PrefixoSemAspasAte(u, TAM_TITULO - 1, k);
    if k <= TAM_TITULO - 1 {
      assert u[k + 1] == (if k + 1 < |t| then t[k + 1] else '"');
    } else {
      assert u[TAM_TITULO - 1] == t[..k][TAM_TITULO - 1];
    }
  }
}
