/**
  The five route handlers of the attendance server as transitions on the
  database value. Each takes the request's inputs and the current tables and
  returns the HTTP status, the JSON payload and the tables afterwards.

  Request body fields are optional strings (or, for `usuario_id`, an optional
  integer); the handlers' `!field` checks reject JavaScript's falsy values,
  which for these types are the missing field, the empty string and 0. The
  clock-in date and time, produced from the host clock and locale, arrive as
  opaque strings, and the failure of the second write of `/api/ponto` is a
  boolean input.
 */
module Routes {
  import opened Store

  /** The error messages of the `{status: 'erro', mensagem}` envelope. */
  datatype Mensagem =
    | DadosIncompletos        // nome, email and senha are required
    | EmailJaCadastrado       // the email is already registered
    | CredenciaisObrigatorias // email and senha are required
    | CredenciaisInvalidas    // no user with this email and senha
    | IdObrigatorio           // usuario_id is required
    | MoedasNaoAdicionadas    // the ponto was stored but the coins were not added
    | UsuarioNaoEncontrado    // no user with this id
    | PontoNaoRegistrado      // corrected clock-in only: the coins failed, so the ponto was rolled back

  /** The user object a login returns: every column except `senha`. */
  datatype Perfil = Perfil(id: int, nome: string, email: string, moedas: int)

  /** One entry of a history listing. */
  datatype Registro = Registro(data: string, hora: string)

  /** The JSON payloads the handlers send. */
  datatype Body =
    | Erro(mensagem: Mensagem)
    | Cadastrado(usuarioId: int)
    | Logado(usuario: Perfil)
    | PontoRegistrado(moedasAdicionadas: int)
    | Saldo(moedas: int)
    | Historico(pontos: seq<Registro>)

  datatype Reply = Reply(status: int, body: Body, db: Db)

  /** A text field that passes the handlers' `!field` check. */
  predicate Truthy(f: Option<string>)
  {
    f.Some? && f.value != ""
  }

  /** A `usuario_id` that passes `!usuario_id`. */
  predicate TruthyId(f: Option<int>)
  {
    f.Some? && f.value != 0
  }

  function PerfilOf(u: Usuario): Perfil
  {
    Perfil(u.id, u.nome, u.email, u.moedas)
  }

  /** The history entries of a list of pontos: one (data, hora) per ponto, in the same order. */
  function Registros(ps: seq<Ponto>): (r: seq<Registro>)
    ensures |r| == |ps|
    ensures forall i :: 0 <= i < |ps| ==> r[i] == Registro(ps[i].data, ps[i].hora)
  {
    if |ps| == 0 then []
    else [Registro(ps[0].data, ps[0].hora)] + Registros(ps[1..])
  }

  /**
    POST /api/cadastrar. Missing fields give 400, an email already in
    `usuarios` gives 409; otherwise one row is inserted with the next id and a
    zero balance, and 201 carries that id. Nothing else changes.
   */
  function Cadastrar(db: Db, nome: Option<string>, email: Option<string>, senha: Option<string>): (r: Reply)
    ensures r.status == 400 <==> !(Truthy(nome) && Truthy(email) && Truthy(senha))
    ensures r.status == 409 <==> Truthy(nome) && Truthy(email) && Truthy(senha) && Any(db.usuarios, EmailIs(email.value))
    ensures r.status == 201 || r.status == 400 || r.status == 409
    ensures r.status == 400 ==> r.body == Erro(DadosIncompletos) && r.db == db
    ensures r.status == 409 ==> r.body == Erro(EmailJaCadastrado) && r.db == db
    ensures r.status == 201 ==>
      && r.body == Cadastrado(db.nextUsuarioId)
      && r.db.usuarios == db.usuarios + [Usuario(db.nextUsuarioId, nome.value, email.value, senha.value, 0)]
      && r.db.pontos == db.pontos
      && r.db.nextUsuarioId == db.nextUsuarioId + 1
      && r.db.nextPontoId == db.nextPontoId
  {
    if !(Truthy(nome) && Truthy(email) && Truthy(senha)) then
      Reply(400, Erro(DadosIncompletos), db)
    else if Select(db.usuarios, EmailIs(email.value)).Some? then
      Reply(409, Erro(EmailJaCadastrado), db)
    else
      var id := db.nextUsuarioId;
      var novo := Usuario(id, nome.value, email.value, senha.value, 0);
      Reply(201, Cadastrado(id), db.(usuarios := db.usuarios + [novo], nextUsuarioId := id + 1))
  }

  /**
    POST /api/login. Missing credentials give 400. Otherwise 200 carries the
    profile (without the password) of a user whose email and senha both match,
    and 401 means no user matches. The tables never change.
   */
  function Login(db: Db, email: Option<string>, senha: Option<string>): (r: Reply)
    ensures r.db == db
    ensures r.status == 200 || r.status == 400 || r.status == 401
    ensures r.status == 400 <==> !(Truthy(email) && Truthy(senha))
    ensures r.status == 400 ==> r.body == Erro(CredenciaisObrigatorias)
    ensures r.status == 401 <==>
      Truthy(email) && Truthy(senha) && !Any(db.usuarios, CredentialsAre(email.value, senha.value))
    ensures r.status == 401 ==> r.body == Erro(CredenciaisInvalidas)
    ensures r.status == 200 ==>
      exists u :: u in db.usuarios && u.email == email.value && u.senha == senha.value
               && r.body == Logado(PerfilOf(u))
    ensures r.status == 200 && EmailsUnique(db.usuarios) ==>
      forall u :: u in db.usuarios && u.email == email.value && u.senha == senha.value
               ==> r.body == Logado(PerfilOf(u))
  {
    if !(Truthy(email) && Truthy(senha)) then
      Reply(400, Erro(CredenciaisObrigatorias), db)
    else
      var w := CredentialsAre(email.value, senha.value);
      match Select(db.usuarios, w)
      case None => Reply(401, Erro(CredenciaisInvalidas), db)
      case Some(u) =>
        assert EmailsUnique(db.usuarios) ==> AtMostOne(db.usuarios, w) by {
          if EmailsUnique(db.usuarios) {
            UniqueEmailsAtMostOne(db.usuarios, w);
          }
        }
        Reply(200, Logado(PerfilOf(u)), db)
  }

  /**
    POST /api/ponto. A falsy `usuario_id` gives 400 and changes nothing.
    Otherwise a ponto is appended for that id whether or not the user exists,
    then, as a separate write, every user row with that id is credited 10
    coins. When that second write fails the ponto stays, no coins are added
    and the reply is 500; otherwise the reply is 200 with the 10 coins.
   */
  function RegistrarPonto(db: Db, usuarioId: Option<int>, data: string, hora: string, updateFails: bool): (r: Reply)
    ensures !TruthyId(usuarioId) ==> r.status == 400 && r.body == Erro(IdObrigatorio) && r.db == db
    ensures TruthyId(usuarioId) ==>
      && r.db.pontos == db.pontos + [Ponto(db.nextPontoId, usuarioId.value, data, hora)]
      && r.db.nextPontoId == db.nextPontoId + 1
      && r.db.nextUsuarioId == db.nextUsuarioId
      && |r.db.usuarios| == |db.usuarios|
      && (forall i :: 0 <= i < |db.usuarios| ==>
            && SameAccount(r.db.usuarios[i], db.usuarios[i])
            && r.db.usuarios[i].moedas == db.usuarios[i].moedas
                 + (if !updateFails && db.usuarios[i].id == usuarioId.value then MoedasPorPonto else 0))
    ensures TruthyId(usuarioId) && updateFails ==> r.status == 500 && r.body == Erro(MoedasNaoAdicionadas)
    ensures TruthyId(usuarioId) && !updateFails ==> r.status == 200 && r.body == PontoRegistrado(MoedasPorPonto)
  {
    if !TruthyId(usuarioId) then
      Reply(400, Erro(IdObrigatorio), db)
    else
      var uid := usuarioId.value;
      // 1. INSERT INTO pontos: no check that the user exists
      var inserted := db.(pontos := db.pontos + [Ponto(db.nextPontoId, uid, data, hora)],
                          nextPontoId := db.nextPontoId + 1);
      // 2. UPDATE usuarios, a separate write that may fail on its own
      if updateFails then
        Reply(500, Erro(MoedasNaoAdicionadas), inserted)
      else
        Reply(200, PontoRegistrado(MoedasPorPonto),
              inserted.(usuarios := Credit(inserted.usuarios, uid, MoedasPorPonto)))
  }

  /**
    GET /api/moedas/:usuario_id. 404 exactly when no user has the id;
    otherwise 200 with that user's stored balance. The tables never change.
   */
  function Moedas(db: Db, usuarioId: int): (r: Reply)
    ensures r.db == db
    ensures r.status == 200 || r.status == 404
    ensures r.status == 404 <==> !Any(db.usuarios, IdIs(usuarioId))
    ensures r.status == 404 ==> r.body == Erro(UsuarioNaoEncontrado)
    ensures r.status == 200 ==>
      exists u :: u in db.usuarios && u.id == usuarioId && r.body == Saldo(u.moedas)
    ensures r.status == 200 && UsuarioIdsIncreasing(db.usuarios) ==>
      forall u :: u in db.usuarios && u.id == usuarioId ==> r.body == Saldo(u.moedas)
  {
    var w := IdIs(usuarioId);
    match Select(db.usuarios, w)
    case None => Reply(404, Erro(UsuarioNaoEncontrado), db)
    case Some(u) =>
      assert UsuarioIdsIncreasing(db.usuarios) ==> AtMostOne(db.usuarios, w) by {
        if UsuarioIdsIncreasing(db.usuarios) {
          UniqueIdsAtMostOne(db.usuarios, usuarioId);
        }
      }
      Reply(200, Saldo(u.moedas), db)
  }

  /**
    The history listing of one user: exactly that user's pontos, newest
    (highest id) first.
   */
  ghost predicate IsHistoryOf(ps: seq<Ponto>, uid: int, sel: seq<Ponto>)
  {
    && (forall p :: p in sel <==> p in ps && p.usuarioId == uid)
    && PontoIdsDecreasing(sel)
  }

  /**
    GET /api/pontos/:usuario_id. Always 200 (an unknown id lists nothing,
    unless orphan pontos carry it), listing the date and time of every ponto
    of that id, newest first. The tables never change.
   */
  function Pontos(db: Db, usuarioId: int): (r: Reply)
    ensures r.db == db
    ensures r.status == 200 && r.body.Historico?
    ensures |r.body.pontos| == Count(db.pontos, usuarioId)
    ensures PontoIdsIncreasing(db.pontos) ==>
      exists sel :: IsHistoryOf(db.pontos, usuarioId, sel) && r.body.pontos == Registros(sel)
  {
    var sel := SelectPontos(db.pontos, usuarioId);
    Reply(200, Historico(Registros(sel)), db)
  }

  /**
    The history reply is determined by the specification alone: for any list
    holding exactly the user's pontos, newest first, the reply lists their
    dates and times in that order.
   */
  lemma PontosExactly(db: Db, usuarioId: int, sel: seq<Ponto>)
    requires PontoIdsIncreasing(db.pontos) && IsHistoryOf(db.pontos, usuarioId, sel)
    ensures Pontos(db, usuarioId).body == Historico(Registros(sel))
  {
    DecreasingUnique(SelectPontos(db.pontos, usuarioId), sel);
  }
}
