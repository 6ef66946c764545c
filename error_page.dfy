/** The custom error page: which status code it shows and the text it renders. */
module ErrorPage {
  import opened Text

  /** What the framework hands the page: the server response's status code when there is a
      response, and the error's status code (possibly absent) when there is an error. */
  datatype Context = Context(res: Option<int>, err: Option<Option<int>>)

  const DefaultStatus := 404

  /** `getInitialProps`: the response's code, else the error's (which may be absent), else 404. */
  function InitialStatusCode(ctx: Context): (code: Option<int>)
    ensures ctx.res.Some? ==> code == Some(ctx.res.value)
    ensures ctx.res.None? && ctx.err.Some? ==> code == ctx.err.value
    ensures ctx.res.None? && ctx.err.None? ==> code == Some(DefaultStatus)
  {
    match ctx.res
    case Some(status) => Some(status)
    case None =>
      match ctx.err
      case Some(status) => status
      case None => Some(DefaultStatus)
  }

  /** The decimal digits of `n`, most significant first, without leading zeros. */
  function Digits(n: nat): (s: string)
    ensures |s| >= 1
    ensures forall k :: 0 <= k < |s| ==> '0' <= s[k] <= '9'
    ensures |s| > 1 ==> s[0] != '0'
    decreases n
  {
    if n < 10 then [DigitChar(n)] else Digits(n / 10) + [DigitChar(n % 10)]
  }

  function DigitChar(d: nat): (c: char)
    requires d < 10
    ensures '0' <= c <= '9'
  {
    "0123456789"[d]
  }

  /** Reads a string of decimal digits back as a number. */
  function ValueOf(s: string): nat
    requires forall k :: 0 <= k < |s| ==> '0' <= s[k] <= '9'
  {
    if s == [] then 0 else 10 * ValueOf(s[..|s| - 1]) + (s[|s| - 1] - '0') as nat
  }

  /** The digits read back as the number they came from. */
  lemma {:induction false} DigitsRoundTrip(n: nat)
    ensures ValueOf(Digits(n)) == n
    decreases n
  {
    if n >= 10 {
      DigitsRoundTrip(n / 10);
      var s := Digits(n);
      assert s[..|s| - 1] == Digits(n / 10);
    }
  }

  /** The template-literal text of a number: a minus sign before the digits of a negative one. */
  function NumberText(n: int): (s: string)
    ensures n >= 0 ==> s == Digits(n)
    ensures n < 0 ==> s == "-" + Digits(-n)
  {
    if n < 0 then "-" + Digits(-n) else Digits(n)
  }

  /** A status code counts as present when it is set and not zero. */
  predicate HasCode(code: Option<int>)
  {
    code.Some? && code.value != 0
  }

  /** The heading and the message under it. */
  datatype Screen = Screen(heading: string, message: string)

  /** Server-side wording when there is a code, client-side wording otherwise. */
  function Render(code: Option<int>): (t: Screen)
    ensures HasCode(code) ==>
      t == Screen("Erro " + NumberText(code.value), "Um erro " + NumberText(code.value) + " ocorreu no servidor")
    ensures !HasCode(code) ==> t == Screen("Ocorreu um erro", "Um erro ocorreu no cliente")
  {
    if HasCode(code) then
      var n := NumberText(code.value);
      Screen("Erro " + n, "Um erro " + n + " ocorreu no servidor")
    else Screen("Ocorreu um erro", "Um erro ocorreu no cliente")
  }

  /** Different codes produce different headings. */
  lemma {:induction false} HeadingIdentifiesCode(a: int, b: int)
    requires a != 0 && b != 0
    requires Render(Some(a)).heading == Render(Some(b)).heading
    ensures a == b
  {
    var ta, tb := NumberText(a), NumberText(b);
    assert ta == Render(Some(a)).heading[5..] && tb == Render(Some(b)).heading[5..];
    NumberTextInjective(a, b);
  }

  lemma {:induction false} NumberTextInjective(a: int, b: int)
    requires NumberText(a) == NumberText(b)
    ensures a == b
  {
    var sa, sb := NumberText(a), NumberText(b);
    assert (sa[0] == '-' <==> a < 0) && (sb[0] == '-' <==> b < 0);
    if a < 0 {
      assert sa[1..] == Digits(-a) && sb[1..] == Digits(-b);
      DigitsInjective(-a, -b);
    } else {
      DigitsInjective(a, b);
    }
  }

  lemma {:induction false} DigitsInjective(a: nat, b: nat)
    requires Digits(a) == Digits(b)
    ensures a == b
  {
    DigitsRoundTrip(a);
    DigitsRoundTrip(b);
  }

  /** With neither a response nor an error the page reads "Erro 404". */
  lemma NothingKnownShowsNotFound()
    ensures Render(InitialStatusCode(Context(None, None))) ==
      Screen("Erro 404", "Um erro 404 ocorreu no servidor")
  {
    var code := InitialStatusCode(Context(None, None));
    assert code == Some(404);
    assert HasCode(code);
    Digits404();
    var n := NumberText(404);
    assert n == "404";
    assert "Erro " + n == "Erro 404";
    assert "Um erro " + n + " ocorreu no servidor" == "Um erro 404 ocorreu no servidor";
  }

  lemma Digits404()
    ensures Digits(404) == "404"
  {
    assert Digits(4) == "4";
    assert Digits(40) == Digits(4) + [DigitChar(0)];
    assert Digits(404) == Digits(40) + [DigitChar(4)];
  }

  /** An error without a code falls back to the client wording, not to 404. */
  lemma ErrorWithoutCodeShowsClientText()
    ensures Render(InitialStatusCode(Context(None, Some(None)))) == Screen("Ocorreu um erro", "Um erro ocorreu no cliente")
  {
  }
}
