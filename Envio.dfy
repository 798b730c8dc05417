/** The result of `enviar_email`. Connecting to the relay, logging in and
    sending are not modelled; only how the function turns the way the send
    ended into its `(sucesso, mensagem)` pair. */
module Envio {

  /** How the send ended: normally, or by raising one of the exceptions the
      function catches. `str(e)` of the exception is kept as `motivo`. */
  datatype ResultadoEnvio =
    | Enviado
    | FalhaAutenticacao(motivo: string)  // smtplib.SMTPAuthenticationError
    | FalhaSmtp(motivo: string)          // any other smtplib.SMTPException
    | FalhaInesperada(motivo: string)    // any other Exception

  /** `isinstance(e, smtplib.SMTPException)`: an authentication error is a
      subclass of the SMTP exception, so it is caught by both handlers' types. */
  predicate IsSmtpException(r: ResultadoEnvio) {
    r.FalhaAutenticacao? || r.FalhaSmtp?
  }

  const MsgSucesso := "Email enviado com sucesso!"
  const MsgAutenticacao := "Erro de autenticação. " + "Verifique as credenciais do email."
  const PrefixoSmtp := "Erro SMTP: "
  const PrefixoInesperado := "Erro inesperado: "

  /** The value `enviar_email` returns. The handlers are tried in order, so the
      first one whose exception type matches decides the message. */
  function MensagemEnvio(r: ResultadoEnvio): (res: (bool, string))
    ensures res.0 <==> r.Enviado?
  {
    if r.Enviado? then (true, MsgSucesso)
    else if r.FalhaAutenticacao? then (false, MsgAutenticacao)
    else if IsSmtpException(r) then (false, PrefixoSmtp + r.motivo)
    else (false, PrefixoInesperado + r.motivo)
  }

  /** The authentication handler wins over the generic SMTP handler even though
      both types match, and its fixed message carries no SMTP prefix. */
  lemma AuthenticationWins(motivo: string)
    ensures IsSmtpException(FalhaAutenticacao(motivo))
    ensures MensagemEnvio(FalhaAutenticacao(motivo)) == (false, MsgAutenticacao)
    ensures !StartsWith(MsgAutenticacao, PrefixoSmtp)
  {
    assert MsgAutenticacao[5] == 'd' && PrefixoSmtp[5] == 'S';
  }

  predicate StartsWith(s: string, p: string) {
    |p| <= |s| && s[..|p|] == p
  }

  /** The user-visible category of a send, read back from the returned pair. */
  datatype Categoria = Sucesso | Autenticacao | Smtp(motivo: string) | Inesperado(motivo: string)

  function CategoriaDe(r: ResultadoEnvio): Categoria {
    match r
    case Enviado => Sucesso
    case FalhaAutenticacao(_) => Autenticacao
    case FalhaSmtp(m) => Smtp(m)
    case FalhaInesperada(m) => Inesperado(m)
  }

  /** Reads the pair back: the flag, then the fixed messages, then the prefixes. */
  function Classificar(res: (bool, string)): Categoria {
    var (sucesso, mensagem) := res;
    if sucesso then Sucesso
    else if mensagem == MsgAutenticacao then Autenticacao
    else if StartsWith(mensagem, PrefixoSmtp) then Smtp(mensagem[|PrefixoSmtp|..])
    else if StartsWith(mensagem, PrefixoInesperado) then Inesperado(mensagem[|PrefixoInesperado|..])
    else Inesperado(mensagem)
  }

  /** The returned pair loses nothing the user is told: the kind of failure and
      its reason can always be read back from it. */
  lemma ClassificarMensagem(r: ResultadoEnvio)
    ensures Classificar(MensagemEnvio(r)) == CategoriaDe(r)
  {
    match r
    case Enviado =>
    case FalhaAutenticacao(_) =>
    case FalhaSmtp(m) =>
      var msg := PrefixoSmtp + m;
      assert msg[5] == PrefixoSmtp[5] == 'S' && MsgAutenticacao[5] == 'd';
      assert msg[..|PrefixoSmtp|] == PrefixoSmtp;
      assert msg[|PrefixoSmtp|..] == m;
    case FalhaInesperada(m) =>
      var msg := PrefixoInesperado + m;
      assert msg[5] == PrefixoInesperado[5] == 'i' && MsgAutenticacao[5] == 'd' && PrefixoSmtp[5] == 'S';
      assert msg[..|PrefixoInesperado|] == PrefixoInesperado;
      assert msg[|PrefixoInesperado|..] == m;
  }
}
