/** The page's session state and the two handlers that change it: the submit
    handler of the form and the "Nova Solicitação" button of the success
    screen. What the page shows is returned as a list of notices. */
module Sessao {
  import opened Formulario
  import opened Envio

  /** The four values handed to `enviar_email`, exactly as typed. */
  datatype Pedido = Pedido(nome: string, email: string, telefone: string, descricao: string)

  /** A notice the page shows: `st.error`, `st.success` or `st.info`. */
  datatype Aviso = AvisoErro(texto: string) | AvisoSucesso(texto: string) | AvisoInfo(texto: string)

  const IconeErro := "\U{274C} "
  const IconeSucesso := "\U{2705} "
  const Dica := "\U{1F4A1} " + "Tente novamente em alguns minutos " + "ou entre em contato diretamente."

  /** The notice for one message: `st.error(f"❌ {erro}")`. */
  function AvisoDe(e: ErroCampo): (r: Aviso)
    ensures r.AvisoErro?
  {
    AvisoErro(IconeErro + Texto(e))
  }

  /** Distinct messages give distinct notices. */
  lemma AvisoDeInjective(x: ErroCampo, y: ErroCampo)
    requires AvisoDe(x) == AvisoDe(y)
    ensures x == y
  {
    assert AvisoDe(x).texto[|IconeErro|..] == Texto(x);
    assert AvisoDe(y).texto[|IconeErro|..] == Texto(y);
    TextoInjective(x, y);
  }

  /** `f` applied to each element of `s`, in order. */
  function Mapear<A, B>(f: A -> B, s: seq<A>): (r: seq<B>)
    ensures |r| == |s|
    ensures forall i :: 0 <= i < |s| ==> r[i] == f(s[i])
  {
    if s == [] then [] else Mapear(f, s[..|s| - 1]) + [f(s[|s| - 1])]
  }

  /** Mapping an injective function loses nothing. */
  lemma MapearInjective<A, B>(f: A -> B, a: seq<A>, b: seq<A>)
    requires forall x, y :: f(x) == f(y) ==> x == y
    requires Mapear(f, a) == Mapear(f, b)
    ensures a == b
  {
    assert |a| == |Mapear(f, a)|;
    forall i | 0 <= i < |a| ensures a[i] == b[i] {
      assert Mapear(f, a)[i] == Mapear(f, b)[i];
    }
  }

  /** One error notice per message, in the list's order. */
  function AvisosDeErros(erros: seq<ErroCampo>): (r: seq<Aviso>)
    ensures |r| == |erros|
  {
    Mapear(AvisoDe, erros)
  }

  /** The notices shown give back the list they were made from: no two lists
      of messages are shown the same way. */
  lemma AvisosDeErrosInjective(a: seq<ErroCampo>, b: seq<ErroCampo>)
    requires AvisosDeErros(a) == AvisosDeErros(b)
    ensures a == b
  {
    forall x, y | AvisoDe(x) == AvisoDe(y) ensures x == y {
      AvisoDeInjective(x, y);
    }
    MapearInjective(AvisoDe, a, b);
  }

  /** Lines 280-283: `st.error` for each message, in order. */
  method ExibirErros(erros: seq<ErroCampo>) returns (avisos: seq<Aviso>)
    ensures avisos == AvisosDeErros(erros)
  {
    avisos := [];
    for i := 0 to |erros|
      invariant avisos == Mapear(AvisoDe, erros[..i])
    {
      assert erros[..i + 1][..i] == erros[..i];
      avisos := avisos + [AvisoDe(erros[i])];
    }
    assert erros[..|erros|] == erros;
  }

  /** What the submit handler shows: the error list when there is one, else
      the outcome of the send. */
  function AvisosDoEnvio(erros: seq<ErroCampo>, resultado: ResultadoEnvio): seq<Aviso> {
    if erros != [] then AvisosDeErros(erros)
    else if resultado.Enviado? then [AvisoSucesso(IconeSucesso + MensagemEnvio(resultado).1)]
    else [AvisoErro(IconeErro + MensagemEnvio(resultado).1), AvisoInfo(Dica)]
  }

  /** The notices tell a rejected form, a failed send and a successful send
      apart: only a successful send shows a success notice, only a failed
      send shows the hint, and a rejected form shows one error per message. */
  lemma AvisosDoEnvioDistinguish(erros: seq<ErroCampo>, resultado: ResultadoEnvio)
    ensures (exists i :: 0 <= i < |AvisosDoEnvio(erros, resultado)| && AvisosDoEnvio(erros, resultado)[i].AvisoSucesso?)
            <==> erros == [] && resultado.Enviado?
    ensures AvisoInfo(Dica) in AvisosDoEnvio(erros, resultado) <==> erros == [] && !resultado.Enviado?
    ensures erros != [] ==> |AvisosDoEnvio(erros, resultado)| == |erros|
  {
    var r := AvisosDoEnvio(erros, resultado);
    if erros == [] && resultado.Enviado? {
      assert r[0].AvisoSucesso?;
    }
    if erros == [] && !resultado.Enviado? {
      assert r[1] == AvisoInfo(Dica);
    }
  }

  /** What happens on the page in one run of the script: the form's submit
      button or the success screen's reset button is pressed, or neither. */
  datatype Acao =
    | Nenhuma
    | Enviar(formulario: Formulario, resultado: ResultadoEnvio)  // the send's outcome, when it is attempted
    | NovaSolicitacao

  class SessaoFormulario {
    var formEnviado: bool
    var mostrarLoading: bool

    /** Both flags agree between runs: false while the form is shown, true
        once a request was sent (the rerun that follows the success notice
        stops the handler before it clears `mostrar_loading`). */
    predicate Valid()
      reads this
    {
      mostrarLoading == formEnviado
    }

    /** Lines 191-194: a new session starts with both flags false. */
    constructor ()
      ensures !formEnviado && !mostrarLoading
      ensures Valid()
    {
      formEnviado := false;
      mostrarLoading := false;
    }

    /** Lines 249-301, the submit handler; it exists only while the form is
        shown. The list of messages is built; when it is not empty it is
        shown and nothing is sent. Otherwise `enviar_email` is called once with
        the values as typed: on success the flag `form_enviado` is set and the
        page reruns at once, on failure its message and a hint are shown. */
    method Submeter(f: Formulario, resultado: ResultadoEnvio) returns (pedido: Option<Pedido>, avisos: seq<Aviso>)
      requires !formEnviado
      modifies this
      ensures pedido == if Erros(f) == [] then Some(Pedido(f.nome, f.email, f.telefone, f.descricao)) else None
      ensures formEnviado <==> Erros(f) == [] && resultado.Enviado?
      ensures mostrarLoading == formEnviado
      ensures avisos == AvisosDoEnvio(Erros(f), resultado)
    {
      mostrarLoading := true;
      var erros := ColetarErros(f);
      pedido, avisos := Concluir(erros, Pedido(f.nome, f.email, f.telefone, f.descricao), resultado);
    }

    /** The rest of the handler once the list is built (lines 279-301):
        show the list, or send and show the outcome. `mostrar_loading` is
        already set. */
    method Concluir(erros: seq<ErroCampo>, p: Pedido, resultado: ResultadoEnvio) returns (pedido: Option<Pedido>, avisos: seq<Aviso>)
      requires !formEnviado && mostrarLoading
      modifies this
      ensures pedido == if erros == [] then Some(p) else None
      ensures formEnviado <==> erros == [] && resultado.Enviado?
      ensures mostrarLoading == formEnviado
      ensures avisos == AvisosDoEnvio(erros, resultado)
    {
      if erros != [] {
        mostrarLoading := false;
        avisos := ExibirErros(erros);
        pedido := None;
      } else {
        pedido := Some(p);
        var res := MensagemEnvio(resultado);
        if res.0 {
          formEnviado := true;
          avisos := [AvisoSucesso(IconeSucesso + res.1)];
          return;  // st.rerun() ends this run of the script here
        }
        avisos := [AvisoErro(IconeErro + res.1), AvisoInfo(Dica)];
        mostrarLoading := false;
      }
    }

    /** Lines 322-326: the reset button of the success screen clears both flags. */
    method Reiniciar()
      requires formEnviado
      modifies this
      ensures !formEnviado && !mostrarLoading
    {
      formEnviado := false;
      mostrarLoading := false;
    }

    /** Line 199: one run of the script. The form, and with it the submit
        button, is shown only while `form_enviado` is false; the reset button
        only once it is true. A press of a button that is not on the screen
        cannot happen and changes nothing. */
    method Executar(acao: Acao) returns (pedido: Option<Pedido>, avisos: seq<Aviso>)
      modifies this
      ensures old(Valid()) ==> Valid()
      ensures acao.Enviar? && !old(formEnviado) ==>
        pedido == (if Erros(acao.formulario) == [] then Some(Pedido(acao.formulario.nome, acao.formulario.email,
                                                                   acao.formulario.telefone, acao.formulario.descricao))
                   else None) &&
        avisos == AvisosDoEnvio(Erros(acao.formulario), acao.resultado) &&
        (formEnviado <==> Erros(acao.formulario) == [] && acao.resultado.Enviado?) &&
        mostrarLoading == formEnviado
      ensures acao.NovaSolicitacao? && old(formEnviado) ==> !formEnviado && !mostrarLoading && avisos == []
      ensures pedido.Some? ==> acao.Enviar? && !old(formEnviado) && Erros(acao.formulario) == []
      ensures !(acao.Enviar? && !old(formEnviado)) && !(acao.NovaSolicitacao? && old(formEnviado)) ==>
        formEnviado == old(formEnviado) && mostrarLoading == old(mostrarLoading) && avisos == []
    {
      pedido, avisos := None, [];
      if !formEnviado {
        if acao.Enviar? {
          pedido, avisos := Submeter(acao.formulario, acao.resultado);
        }
      } else if acao.NovaSolicitacao? {
        Reiniciar();
      }
    }
  }
}
