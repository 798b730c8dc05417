/** The validation block of the submit handler: five rules, checked in a
    fixed order, each adding at most one message to the list `erros`. */
module Formulario {
  import opened Text
  import opened Validadores

  /** The values of the form's widgets when the submit button is pressed. */
  datatype Formulario = Formulario(
    nome: string,
    email: string,
    telefone: string,
    descricao: string,
    confirmar: bool)

  /** One message of the list, named after the field and the rule that failed. */
  datatype ErroCampo =
    | NomeObrigatorio | NomeCurto
    | EmailObrigatorio | EmailInvalido
    | TelefoneObrigatorio | TelefoneInvalido
    | DescricaoObrigatoria | DescricaoCurta
    | ConfirmacaoAusente

  /** The text the handler appends for each message. */
  function Texto(e: ErroCampo): string {
    match e
    case NomeObrigatorio => "Nome é obrigatório"
    case NomeCurto => "Nome deve ter pelo menos 2 caracteres"
    case EmailObrigatorio => "Email é obrigatório"
    case EmailInvalido => "Email inválido"
    case TelefoneObrigatorio => "Telefone é obrigatório"
    case TelefoneInvalido => "Telefone inválido"
    case DescricaoObrigatoria => "Descrição é obrigatória"
    case DescricaoCurta => "Descrição deve ter pelo menos 20 caracteres"
    case ConfirmacaoAusente => "Você deve confirmar as informações"
  }

  /** Position of the message's field in the form: name, email, phone,
      description, confirmation. */
  function Campo(e: ErroCampo): nat {
    match e
    case NomeObrigatorio | NomeCurto => 0
    case EmailObrigatorio | EmailInvalido => 1
    case TelefoneObrigatorio | TelefoneInvalido => 2
    case DescricaoObrigatoria | DescricaoCurta => 3
    case ConfirmacaoAusente => 4
  }

  /** Distinct messages have distinct texts, so the list of texts the user sees
      tells exactly which rules failed. */
  lemma TextoInjective(a: ErroCampo, b: ErroCampo)
    ensures Texto(a) == Texto(b) ==> a == b
  {
  }

  /** Minimum stripped lengths of the name and of the description. */
  const MinNome := 2
  const MinDescricao := 20

  /** The outcome of every test the handler makes on the form, before any
      message is chosen: for each text field, whether it is blank once stripped
      and whether its format or length check fails. */
  datatype Verificacao = Verificacao(
    nomeVazio: bool, nomeCurto: bool,
    emailVazio: bool, emailInvalido: bool,
    telefoneVazio: bool, telefoneInvalido: bool,
    descricaoVazia: bool, descricaoCurta: bool,
    confirmado: bool)

  /** The tests of lines 256-276. Email and phone formats are checked on the
      value as typed; only the blank tests and the lengths use the stripped value. */
  function Verificar(f: Formulario): Verificacao {
    Verificacao(
      IsBlank(f.nome), |Strip(f.nome)| < MinNome,
      IsBlank(f.email), !ValidarEmail(f.email),
      IsBlank(f.telefone), !ValidarTelefone(f.telefone),
      IsBlank(f.descricao), |Strip(f.descricao)| < MinDescricao,
      f.confirmar)
  }

  datatype Option<T> = None | Some(value: T)

  /** The shape every text field's rule shares: the "missing" message when the
      field is blank, else the format or length message when that check fails,
      else nothing. `elif` makes the two exclusive. */
  function Regra(vazio: bool, falha: bool, obrigatorio: ErroCampo, invalido: ErroCampo): Option<ErroCampo> {
    if vazio then Some(obrigatorio) else if falha then Some(invalido) else None
  }

  /** The message a rule contributes, as a list of zero or one. */
  function Opt(o: Option<ErroCampo>): (r: seq<ErroCampo>)
    ensures |r| <= 1 && (r == [] <==> o.None?)
  {
    if o.Some? then [o.value] else []
  }

  /** The list `erros` as the handler builds it from the tests' outcomes: it
      starts empty and each of the five rules, in turn, appends its message
      when it has one. No rule is skipped because an earlier one failed. */
  function ErrosDe(v: Verificacao): seq<ErroCampo> {
    [] +
    Opt(Regra(v.nomeVazio, v.nomeCurto, NomeObrigatorio, NomeCurto)) +
    Opt(Regra(v.emailVazio, v.emailInvalido, EmailObrigatorio, EmailInvalido)) +
    Opt(Regra(v.telefoneVazio, v.telefoneInvalido, TelefoneObrigatorio, TelefoneInvalido)) +
    Opt(Regra(v.descricaoVazia, v.descricaoCurta, DescricaoObrigatoria, DescricaoCurta)) +
    Opt(if v.confirmado then None else Some(ConfirmacaoAusente))
  }

  /** The list `erros` once the handler's validation block has run on a form. */
  function Erros(f: Formulario): seq<ErroCampo> {
    ErrosDe(Verificar(f))
  }

  /** The slot view of `ErrosDe`: the five rules as slots, in the order they
      run, each holding what its rule yields (`ErrosDeIsPresentes` proves the
      two agree). Each rule speaks only about its own field. */
  function Resultados(v: Verificacao): (r: seq<Option<ErroCampo>>)
    ensures |r| == 5
    ensures forall k :: 0 <= k < |r| && r[k].Some? ==> Campo(r[k].value) == k
  {
    [ Regra(v.nomeVazio, v.nomeCurto, NomeObrigatorio, NomeCurto),
      Regra(v.emailVazio, v.emailInvalido, EmailObrigatorio, EmailInvalido),
      Regra(v.telefoneVazio, v.telefoneInvalido, TelefoneObrigatorio, TelefoneInvalido),
      Regra(v.descricaoVazia, v.descricaoCurta, DescricaoObrigatoria, DescricaoCurta),
      if v.confirmado then None else Some(ConfirmacaoAusente) ]
  }

  /** The messages present in a sequence of slots, in slot order. */
  function Presentes(os: seq<Option<ErroCampo>>): (r: seq<ErroCampo>)
    ensures |r| <= |os|
    ensures r == [] <==> forall k :: 0 <= k < |os| ==> os[k].None?
  {
    if os == [] then []
    else Presentes(os[..|os| - 1]) + Opt(os[|os| - 1])
  }

  /** The messages appear in field order, at most one per field. */
  predicate InFieldOrder(r: seq<ErroCampo>) {
    forall i, j :: 0 <= i < j < |r| ==> Campo(r[i]) < Campo(r[j])
  }

  /** Every message of `r` is about a field before position `k`. */
  predicate FieldsBelow(r: seq<ErroCampo>, k: nat) {
    forall i :: 0 <= i < |r| ==> Campo(r[i]) < k
  }

  /** The first `k + 1` slots yield what the first `k` yield, then slot `k`'s. */
  lemma PresentesPrefix(os: seq<Option<ErroCampo>>, k: nat)
    requires k < |os|
    ensures Presentes(os[..k + 1]) == Presentes(os[..k]) + Opt(os[k])
  {
    assert os[..k + 1][..k] == os[..k];
  }

  /** A message is present exactly when some slot holds it. */
  lemma {:induction false} PresentesMembership(os: seq<Option<ErroCampo>>, x: ErroCampo)
    ensures x in Presentes(os) <==> exists k :: 0 <= k < |os| && os[k] == Some(x)
  {
    if os != [] {
      var init := os[..|os| - 1];
      PresentesMembership(init, x);
      if x in Presentes(init) {
        var k :| 0 <= k < |init| && init[k] == Some(x);
        assert os[k] == Some(x);
      }
      if exists k :: 0 <= k < |os| && os[k] == Some(x) {
        var k :| 0 <= k < |os| && os[k] == Some(x);
        if k < |init| {
          assert init[k] == Some(x);
        }
      }
    }
  }

  /** When slot `k` only ever holds messages about field `k`, the present
      messages are in field order. */
  lemma {:induction false} PresentesInFieldOrder(os: seq<Option<ErroCampo>>)
    requires forall k :: 0 <= k < |os| && os[k].Some? ==> Campo(os[k].value) == k
    ensures InFieldOrder(Presentes(os)) && FieldsBelow(Presentes(os), |os|)
  {
    if os != [] {
      var init, last := os[..|os| - 1], os[|os| - 1];
      assert forall k :: 0 <= k < |init| ==> init[k] == os[k];
      PresentesInFieldOrder(init);
      var a, b := Presentes(init), Opt(last);
      forall i, j | 0 <= i < j < |a + b| ensures Campo((a + b)[i]) < Campo((a + b)[j]) {
        if j >= |a| {
          assert (a + b)[i] == a[i];
        }
      }
    }
  }

  /** Five slots' messages written out one after the other. */
  lemma PresentesFive(os: seq<Option<ErroCampo>>)
    requires |os| == 5
    ensures Presentes(os) == [] + Opt(os[0]) + Opt(os[1]) + Opt(os[2]) + Opt(os[3]) + Opt(os[4])
  {
    assert os[..0] == [];
    PresentesPrefix(os, 0);
    assert Presentes(os[..1]) == [] + Opt(os[0]);
    PresentesPrefix(os, 1);
    assert Presentes(os[..2]) == [] + Opt(os[0]) + Opt(os[1]);
    PresentesPrefix(os, 2);
    assert Presentes(os[..3]) == [] + Opt(os[0]) + Opt(os[1]) + Opt(os[2]);
    PresentesPrefix(os, 3);
    assert Presentes(os[..4]) == [] + Opt(os[0]) + Opt(os[1]) + Opt(os[2]) + Opt(os[3]);
    PresentesPrefix(os, 4);
    assert os[..5] == os;
  }

  /** The list the handler builds is the messages present in the rule slots. */
  lemma ErrosDeIsPresentes(v: Verificacao)
    ensures ErrosDe(v) == Presentes(Resultados(v))
  {
    PresentesFive(Resultados(v));
  }

  /** Every rule runs, whatever the earlier ones found: the list holds at most
      one message per field, in the order name, email, phone, description,
      confirmation, and it is empty exactly when every test passes. */
  lemma ErrosDeShape(v: Verificacao)
    ensures |ErrosDe(v)| <= 5
    ensures InFieldOrder(ErrosDe(v))
    ensures ErrosDe(v) == [] <==>
      !v.nomeVazio && !v.nomeCurto && !v.emailVazio && !v.emailInvalido &&
      !v.telefoneVazio && !v.telefoneInvalido && !v.descricaoVazia && !v.descricaoCurta &&
      v.confirmado
  {
    ErrosDeOrder(v);
  }

  lemma ErrosDeOrder(v: Verificacao)
    ensures |ErrosDe(v)| <= 5
    ensures InFieldOrder(ErrosDe(v))
  {
    ErrosDeIsPresentes(v);
    PresentesInFieldOrder(Resultados(v));
  }

  /** A message is in the list exactly when the rule for its field yields it. */
  lemma ErrosDeMembership(v: Verificacao, x: ErroCampo)
    ensures x in ErrosDe(v) <==> Resultados(v)[Campo(x)] == Some(x)
  {
    ErrosDeIsPresentes(v);
    PresentesMembership(Resultados(v), x);
  }

  /** The form is accepted: every field passes its check. */
  predicate Aceito(f: Formulario) {
    |Strip(f.nome)| >= MinNome &&
    ValidarEmail(f.email) &&
    ValidarTelefone(f.telefone) &&
    |Strip(f.descricao)| >= MinDescricao &&
    f.confirmar
  }

  /** The list is empty exactly when the form is accepted: the "missing" tests
      add nothing to the checks, since a blank field never passes them. */
  lemma ErrosEmptyIffAceito(f: Formulario)
    ensures |Erros(f)| <= 5 && InFieldOrder(Erros(f))
    ensures Erros(f) == [] <==> Aceito(f)
  {
    ErrosDeShape(Verificar(f));
    AcceptedIsNotBlank(f.email);
    AcceptedIsNotBlank(f.telefone);
  }

  /** A text-field rule seen in the list: its "missing" message is there
      exactly when the field is blank, its other message exactly when the
      field is not blank and its check fails. */
  lemma ErrosDeRegra(v: Verificacao, k: nat, vazio: bool, falha: bool, obrigatorio: ErroCampo, invalido: ErroCampo)
    requires k < 5 && Resultados(v)[k] == Regra(vazio, falha, obrigatorio, invalido)
    requires Campo(obrigatorio) == k && Campo(invalido) == k && obrigatorio != invalido
    ensures obrigatorio in ErrosDe(v) <==> vazio
    ensures invalido in ErrosDe(v) <==> !vazio && falha
  {
    ErrosDeMembership(v, obrigatorio);
    ErrosDeMembership(v, invalido);
  }

  /** The name rule: "missing" when blank, else "too short". */
  lemma ErrosDeNome(v: Verificacao)
    ensures NomeObrigatorio in ErrosDe(v) <==> v.nomeVazio
    ensures NomeCurto in ErrosDe(v) <==> !v.nomeVazio && v.nomeCurto
  {
    ErrosDeRegra(v, 0, v.nomeVazio, v.nomeCurto, NomeObrigatorio, NomeCurto);
  }

  /** The email rule: "missing" when blank, else "invalid" when the format fails. */
  lemma ErrosDeEmail(v: Verificacao)
    ensures EmailObrigatorio in ErrosDe(v) <==> v.emailVazio
    ensures EmailInvalido in ErrosDe(v) <==> !v.emailVazio && v.emailInvalido
  {
    ErrosDeRegra(v, 1, v.emailVazio, v.emailInvalido, EmailObrigatorio, EmailInvalido);
  }

  /** The phone rule: "missing" when blank, else "invalid" when the digit count fails. */
  lemma ErrosDeTelefone(v: Verificacao)
    ensures TelefoneObrigatorio in ErrosDe(v) <==> v.telefoneVazio
    ensures TelefoneInvalido in ErrosDe(v) <==> !v.telefoneVazio && v.telefoneInvalido
  {
    ErrosDeRegra(v, 2, v.telefoneVazio, v.telefoneInvalido, TelefoneObrigatorio, TelefoneInvalido);
  }

  /** The description rule: "missing" when blank, else "too short". */
  lemma ErrosDeDescricao(v: Verificacao)
    ensures DescricaoObrigatoria in ErrosDe(v) <==> v.descricaoVazia
    ensures DescricaoCurta in ErrosDe(v) <==> !v.descricaoVazia && v.descricaoCurta
  {
    ErrosDeRegra(v, 3, v.descricaoVazia, v.descricaoCurta, DescricaoObrigatoria, DescricaoCurta);
  }

  /** The confirmation rule: its message exactly when the box is not ticked. */
  lemma ErrosDeConfirmacao(v: Verificacao)
    ensures ConfirmacaoAusente in ErrosDe(v) <==> !v.confirmado
  {
    assert Resultados(v)[4] == if v.confirmado then None else Some(ConfirmacaoAusente);
    ErrosDeMembership(v, ConfirmacaoAusente);
  }

  /** Membership in terms of the form's own fields. */
  lemma ErrosMembership(f: Formulario)
    ensures NomeObrigatorio in Erros(f) <==> IsBlank(f.nome)
    ensures NomeCurto in Erros(f) <==> !IsBlank(f.nome) && |Strip(f.nome)| < MinNome
    ensures EmailObrigatorio in Erros(f) <==> IsBlank(f.email)
    ensures EmailInvalido in Erros(f) <==> !IsBlank(f.email) && !ValidarEmail(f.email)
    ensures TelefoneObrigatorio in Erros(f) <==> IsBlank(f.telefone)
    ensures TelefoneInvalido in Erros(f) <==> !IsBlank(f.telefone) && !ValidarTelefone(f.telefone)
    ensures DescricaoObrigatoria in Erros(f) <==> IsBlank(f.descricao)
    ensures DescricaoCurta in Erros(f) <==> !IsBlank(f.descricao) && |Strip(f.descricao)| < MinDescricao
    ensures ConfirmacaoAusente in Erros(f) <==> !f.confirmar
  {
    var v := Verificar(f);
    ErrosDeNome(v);
    ErrosDeEmail(v);
    ErrosDeTelefone(v);
    ErrosDeDescricao(v);
    ErrosDeConfirmacao(v);
  }

  /** A name of one non-blank character fails on length; two pass. */
  lemma NomeBoundary(f: Formulario)
    ensures |Strip(f.nome)| == 1 ==> NomeCurto in Erros(f) && NomeObrigatorio !in Erros(f)
    ensures |Strip(f.nome)| == 2 ==> NomeCurto !in Erros(f) && NomeObrigatorio !in Erros(f)
  {
    ErrosMembership(f);
  }

  /** A description of 19 non-blank characters fails on length; 20 pass. */
  lemma DescricaoBoundary(f: Formulario)
    ensures |Strip(f.descricao)| == 19 ==> DescricaoCurta in Erros(f) && DescricaoObrigatoria !in Erros(f)
    ensures |Strip(f.descricao)| == 20 ==> DescricaoCurta !in Erros(f) && DescricaoObrigatoria !in Erros(f)
  {
    ErrosMembership(f);
  }

  /** Changing the email touches only the email's two outcomes. */
  lemma VerificarEmail(f: Formulario, e: string)
    ensures Verificar(f.(email := e)) == Verificar(f).(emailVazio := IsBlank(e), emailInvalido := !ValidarEmail(e))
  {
  }

  /** The email format is checked on the value as typed: a space before a
      non-blank address always yields "Email inválido", and the other fields'
      outcomes are unchanged. */
  lemma EmailLeadingSpace(f: Formulario)
    requires !IsBlank(f.email)
    ensures Verificar(f.(email := " " + f.email)) == Verificar(f).(emailVazio := false, emailInvalido := true)
  {
    var e := " " + f.email;
    ValidarEmailRejectsLeadingSpace(f.email);
    BlankIgnoresSurroundingSpace(" ", f.email, "");
    assert " " + f.email + "" == e;
    VerificarEmail(f, e);
  }

  /** The same for a space after the address. */
  lemma EmailTrailingSpace(f: Formulario)
    requires !IsBlank(f.email)
    ensures Verificar(f.(email := f.email + " ")) == Verificar(f).(emailVazio := false, emailInvalido := true)
  {
    var e := f.email + " ";
    ValidarEmailRejectsTrailingSpace(f.email);
    BlankIgnoresSurroundingSpace("", f.email, " ");
    assert "" + f.email + " " == e;
    VerificarEmail(f, e);
  }

  /** Whitespace around the phone number never changes the list. */
  lemma TelefoneSpaceInsensitive(f: Formulario, pre: string, post: string)
    requires AllSpace(pre) && AllSpace(post)
    ensures Verificar(f.(telefone := pre + f.telefone + post)) == Verificar(f)
  {
    BlankIgnoresSurroundingSpace(pre, f.telefone, post);
    ValidarTelefoneIgnoresSurroundingSpace(pre, f.telefone, post);
  }

  /** A blank name with every other field valid is reported by its "missing"
      message alone. */
  lemma OnlyNameMissing(f: Formulario)
    requires IsBlank(f.nome)
    requires ValidarEmail(f.email) && ValidarTelefone(f.telefone)
    requires |Strip(f.descricao)| >= MinDescricao && f.confirmar
    ensures Erros(f) == [NomeObrigatorio]
  {
    AcceptedIsNotBlank(f.email);
    AcceptedIsNotBlank(f.telefone);
  }

  /** Valid fields with the box left unticked are rejected on the confirmation
      rule alone. */
  lemma OnlyConfirmationMissing(f: Formulario)
    requires Aceito(f.(confirmar := true))
    requires !f.confirmar
    ensures Erros(f) == [ConfirmacaoAusente]
  {
    AcceptedIsNotBlank(f.email);
    AcceptedIsNotBlank(f.telefone);
  }

  /** One text-field rule as the handler writes it: append the "missing"
      message when the field is blank, else the format or length message when
      that check fails. */
  method AplicarRegra(erros: seq<ErroCampo>, vazio: bool, falha: bool, obrigatorio: ErroCampo, invalido: ErroCampo)
    returns (r: seq<ErroCampo>)
    ensures r == erros + Opt(Regra(vazio, falha, obrigatorio, invalido))
  {
    r := erros;
    if vazio {
      r := r + [obrigatorio];
    } else if falha {
      r := r + [invalido];
    }
  }

  /** The appends of lines 253-277, given the tests' outcomes: an empty list,
      then each rule in field order appends its message when it fails. */
  method ColetarErrosDe(v: Verificacao) returns (erros: seq<ErroCampo>)
    ensures erros == ErrosDe(v)
  {
    erros := [];
    erros := AplicarRegra(erros, v.nomeVazio, v.nomeCurto, NomeObrigatorio, NomeCurto);
    erros := AplicarRegra(erros, v.emailVazio, v.emailInvalido, EmailObrigatorio, EmailInvalido);
    erros := AplicarRegra(erros, v.telefoneVazio, v.telefoneInvalido, TelefoneObrigatorio, TelefoneInvalido);
    erros := AplicarRegra(erros, v.descricaoVazia, v.descricaoCurta, DescricaoObrigatoria, DescricaoCurta);
    if !v.confirmado {
      erros := erros + [ConfirmacaoAusente];
    } else {
      assert erros + Opt(None) == erros;
    }
  }

  /** Lines 253-277: the tests on the form's values, then the appends. */
  method ColetarErros(f: Formulario) returns (erros: seq<ErroCampo>)
    ensures erros == Erros(f)
  {
    erros := ColetarErrosDe(Verificar(f));
  }
}
