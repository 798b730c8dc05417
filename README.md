# Automation request form — validation and submission flow

`streamlit_app.py` is a single Streamlit page. A visitor fills in a request
for a Python automation: name, phone, email, description, and a confirmation
box. On submit, the page runs five rules over the values and builds the list
`erros`. When the list is not empty, each message is shown. Otherwise the
page calls `enviar_email`, which sends the request by SMTP and returns a
`(sucesso, mensagem)` pair. On success the flag `form_enviado` is set and the
page reruns into a success screen. That screen's "Nova Solicitação" button
clears the session flags again.

This project models that flow in Dafny and proves what it does:

- `Text`: Python's `str.strip()` and `not s.strip()`, which every text-field rule uses,
  over ASCII whitespace (`str.isspace()` on code points below 128).
- `Validadores`:
  - `validar_email`: the anchored pattern `[a-zA-Z0-9._%+-]+@[a-zA-Z0-9.-]+\.[a-zA-Z]{2,}`.
    It is restated by hand (`EmailShapeOk`) and proved equal to the pattern,
    which is written as a logical formula (`MatchesPattern`). The predicate
    includes the one trailing line feed that `$` tolerates in `re.match`.
  - `validar_telefone`: `re.sub(r'[^\d]', '', s)` followed by a count of
    10 to 15 digits.
- `Envio`: how `enviar_email` turns the way the send ended into its returned
  pair. The handlers are tried in order, so the authentication handler wins
  over the generic SMTP one.
- `Formulario`: the validation block.
  - `Verificar` records every test the handler makes.
  - `ErrosDe`/`Erros` define the resulting list.
  - `ColetarErrosDe`/`ColetarErros` build it one append at a time, as the
    handler does.
  - Messages are the values of `ErroCampo`. `Texto` gives each one the exact
    Portuguese text the handler appends.
- `Sessao`: the session flags `form_enviado` and `mostrar_loading` as the
  class `SessaoFormulario`. Its methods are the submit handler, the reset
  button, and one run of the page. The notices the page shows (`st.error`,
  `st.success`, `st.info`) are returned as a list of `Aviso`. Their emoji
  prefixes are the characters U+274C, U+2705 and U+1F4A1, as in the code.

### Behaviour of the code worth knowing

- **Loading flag after a successful send.** After a successful send,
  `st.rerun()` on line 296 ends the run before line 301, so both
  `form_enviado` and `mostrar_loading` stay true until the reset.
  `SessaoFormulario.Valid` is `mostrarLoading == formEnviado`, and every run
  of the page keeps it. The loading flag is never read anywhere, so nothing
  visible depends on it.
- **Phone digit count.** The comment on line 135 speaks of 10 or 11 digits.
  The code accepts 10 to 15, and so does the model.
- **Email checked as typed.** The blank test uses the stripped email, but
  `validar_email` receives the value as typed. So an address with a space
  around it is reported as "Email inválido". See `EmailLeadingSpace` and
  `EmailTrailingSpace`.

## Model

| member | source | states |
|---|---|---|
| Text.StripIsSlice | streamlit_app.py:256-274 | `strip()` leaves a slice of the input with only whitespace outside it; the result neither starts nor ends with whitespace |
| Text.BlankIffAllSpace | streamlit_app.py:256-271 | `not s.strip()` holds exactly when every character of `s` is whitespace |
| Text.BlankIgnoresSurroundingSpace | streamlit_app.py:256-271 | whitespace added before or after a value never changes whether it is blank |
| Validadores.EmailShapeIffPattern | streamlit_app.py:124-127 | the hand-written email check accepts exactly the strings the pattern matches in full |
| Validadores.EmailShapeMatchesPattern | streamlit_app.py:124-127 | every string the hand-written check accepts matches the pattern |
| Validadores.PatternMatchesEmailShape | streamlit_app.py:124-127 | every string the pattern matches passes the hand-written check |
| Validadores.ValidarEmailIffPattern | streamlit_app.py:124-127 | `validar_email` accepts exactly the pattern's matches, plus those followed by a single line feed |
| Validadores.EmailShapeOnlyAt | streamlit_app.py:126 | in an accepted address the first `@` is the only one |
| Validadores.ValidarEmailOneAt | streamlit_app.py:124-127 | an accepted address has exactly one `@`, with at least one character on each side |
| Validadores.ValidarEmailRejectsLeadingSpace | streamlit_app.py:126-127 | an address starting with a space is always rejected |
| Validadores.ValidarEmailRejectsTrailingSpace | streamlit_app.py:126-127 | an address ending with a space is always rejected |
| Validadores.Digits | streamlit_app.py:133-134 | removing every non-digit keeps only digits, and keeps every digit as often as it occurs |
| Validadores.DigitsAppend | streamlit_app.py:134 | the digits of a concatenation are the digits of each part, in order |
| Validadores.ValidarTelefoneIffDigitCount | streamlit_app.py:131-136 | `validar_telefone` accepts exactly the strings with 10 to 15 digit positions |
| Validadores.ValidarTelefoneIgnoresNonDigit | streamlit_app.py:131-136 | inserting a non-digit character anywhere never changes the verdict |
| Validadores.ValidarTelefoneIgnoresSurroundingSpace | streamlit_app.py:131-136 | whitespace around the number never changes the verdict |
| Validadores.AcceptedIsNotBlank | streamlit_app.py:124-136 | an accepted phone number or email address is never blank |
| Envio.MensagemEnvio | streamlit_app.py:180-187 | the returned flag is true exactly when the send completed |
| Envio.AuthenticationWins | streamlit_app.py:182-185 | an authentication error, though an SMTP error too, gets the fixed authentication message, which carries no SMTP prefix |
| Envio.ClassificarMensagem | streamlit_app.py:180-187 | the kind of failure and its reason can be read back from the returned pair for every outcome |
| Formulario.TextoInjective | streamlit_app.py:257-277 | no two messages have the same text |
| Formulario.Resultados | streamlit_app.py:256-277 | each rule yields only messages about its own field |
| Formulario.ErrosDeIsPresentes | streamlit_app.py:253-277 | the list is the messages the five rules yield, in the order the rules run |
| Formulario.ErrosDeShape | streamlit_app.py:253-277 | at most five messages, in field order, at most one per field; the list is empty exactly when every test passes |
| Formulario.ErrosDeOrder | streamlit_app.py:253-277 | at most five messages, in strictly increasing field order |
| Formulario.ErrosDeMembership | streamlit_app.py:253-277 | a message is in the list exactly when its field's rule yields it |
| Formulario.ErrosDeRegra | streamlit_app.py:256-274 | for a text field, the "missing" message is present exactly when the field is blank, and the other message exactly when it is not blank and its check fails |
| Formulario.ErrosDeNome | streamlit_app.py:256-259 | the name rule's two messages and when each appears |
| Formulario.ErrosDeEmail | streamlit_app.py:261-264 | the email rule's two messages and when each appears |
| Formulario.ErrosDeTelefone | streamlit_app.py:266-269 | the phone rule's two messages and when each appears |
| Formulario.ErrosDeDescricao | streamlit_app.py:271-274 | the description rule's two messages and when each appears |
| Formulario.ErrosDeConfirmacao | streamlit_app.py:276-277 | the confirmation message appears exactly when the box is not ticked |
| Formulario.ErrosMembership | streamlit_app.py:253-277 | all nine messages, each present exactly when its condition on the form's own values holds |
| Formulario.ErrosEmptyIffAceito | streamlit_app.py:253-280 | the list is empty exactly when the stripped name has 2+ characters, the email and phone pass their validators, the stripped description has 20+ characters and the box is ticked |
| Formulario.NomeBoundary | streamlit_app.py:258 | a stripped name of 1 character is too short; one of 2 passes |
| Formulario.DescricaoBoundary | streamlit_app.py:273 | a stripped description of 19 characters is too short; one of 20 passes |
| Formulario.VerificarEmail | streamlit_app.py:261-264 | changing the email changes only the email rule's two tests |
| Formulario.EmailLeadingSpace | streamlit_app.py:261-264 | a space before a non-blank address turns its outcome into "Email inválido" and changes nothing else |
| Formulario.EmailTrailingSpace | streamlit_app.py:261-264 | a space after a non-blank address turns its outcome into "Email inválido" and changes nothing else |
| Formulario.TelefoneSpaceInsensitive | streamlit_app.py:266-269 | whitespace around the phone number never changes any test's outcome |
| Formulario.OnlyNameMissing | streamlit_app.py:253-277 | a blank name with every other field valid gives exactly `["Nome é obrigatório"]` |
| Formulario.OnlyConfirmationMissing | streamlit_app.py:253-277 | valid fields with the box unticked give exactly `["Você deve confirmar as informações"]` |
| Formulario.AplicarRegra | streamlit_app.py:256-259 | one `if`/`elif` rule appends the "missing" message, else the check's message, else nothing |
| Formulario.ColetarErrosDe | streamlit_app.py:253-277 | appending rule by rule from an empty list yields exactly the list of the definition |
| Formulario.ColetarErros | streamlit_app.py:253-277 | the handler's list for a form is exactly `Erros(f)` |
| Sessao.AvisoDeInjective | streamlit_app.py:283 | distinct messages give distinct error notices |
| Sessao.AvisosDeErrosInjective | streamlit_app.py:280-283 | the notices shown give back the exact list of messages, in order |
| Sessao.ExibirErros | streamlit_app.py:282-283 | the loop shows one error notice per message, in the list's order |
| Sessao.AvisosDoEnvioDistinguish | streamlit_app.py:280-299 | a success notice appears exactly after a successful send, the retry hint exactly after a failed one, and a rejected form gets one notice per message |
| Sessao.SessaoFormulario.constructor | streamlit_app.py:191-194 | a new session starts with both flags false |
| Sessao.SessaoFormulario.Submeter | streamlit_app.py:249-301 | `enviar_email` is called, with the values as typed, exactly when the list is empty; `form_enviado` is set exactly when that send succeeds; afterwards `mostrar_loading` equals `form_enviado`; the notices are the list's, or the send's outcome |
| Sessao.SessaoFormulario.Concluir | streamlit_app.py:280-301 | after the list is built: its notices, or one send and its outcome; the loading flag is cleared except when the rerun cuts the run short |
| Sessao.SessaoFormulario.Reiniciar | streamlit_app.py:322-326 | the reset button clears both flags |
| Sessao.SessaoFormulario.Executar | streamlit_app.py:199-326 | one run of the page keeps `mostrar_loading == form_enviado`, and a submit leaves them equal whatever the loading flag was before; the submit button acts only on the form screen, the reset button only on the success screen; anything else changes nothing and shows nothing |

## Left out

- Page rendering is not modelled: CSS, HTML, columns, headers, the success screen's text and the footer.
- Inside `enviar_email`, only the returned pair is modelled. Reading the three environment variables, building the MIME message, the subject, the body template with its timestamp, the SSL connection, the login and the send are left out. The way the send ended is an input (`ResultadoEnvio`), and `str(e)` is kept as an uninterpreted string.
- `time.sleep`, `st.spinner` and the timing of the notices are left out. They change nothing the page decides.
- `st.rerun()` is modelled only as the end of the current run. Running the page again from the top is `Executar` called once more.
- Lines 191-194 are modelled by the class's constructor, which is a session seen for the first time. A session that already holds the keys keeps its values, which is the state a `SessaoFormulario` object carries between runs.
- Text.StripIsSlice and Text.BlankIffAllSpace: whitespace is Python's `str.isspace()` on ASCII only. The Unicode spaces that `strip()` also removes (no-break space, the U+2000 range and others) are not modelled.
- Validadores.ValidarTelefoneIffDigitCount: `\d` is read as the ASCII digits `0`-`9`. Python's `\d` on `str` also matches other Unicode decimal digits, which are not modelled.
- Validadores.ValidarEmailIffPattern: the pattern is stated over Dafny characters, which are Unicode scalar values. Its classes are ASCII, as in the code, so no case folding or normalisation arises.
- The pattern `MatchesPattern` is a ghost predicate, an existential over the positions of `@` and `.`. Only its equivalence with the executable check is proved. Python's regular-expression engine itself is not modelled.
