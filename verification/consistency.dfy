/**
  The coin ledger: every balance should equal 10 coins per recorded clock-in
  of that user, and every clock-in should belong to a user. This module shows
  which handlers keep that invariant, how `/api/ponto` as written breaks it in
  two ways, and a corrected clock-in that keeps it on every input.
 */
module Consistency {
  import opened Store
  import opened Routes

  // ---------------------------------------------------------------------
  // The schema invariant

  /** Registration keeps the schema invariant; a new id exceeds every earlier one. */
  lemma CadastrarKeepsValid(db: Db, nome: Option<string>, email: Option<string>, senha: Option<string>)
    requires Valid(db)
    ensures Valid(Cadastrar(db, nome, email, senha).db)
    ensures var r := Cadastrar(db, nome, email, senha);
      r.status == 201 ==> forall u :: u in db.usuarios ==> u.id < r.body.usuarioId
  {
    var r := Cadastrar(db, nome, email, senha);
    if r.status == 201 {
      var us := r.db.usuarios;
      assert us[|us| - 1].id == db.nextUsuarioId;
      forall i, j | 0 <= i < j < |us| ensures us[i].email != us[j].email {
        if j == |us| - 1 {
          assert us[i] in db.usuarios;
        }
      }
      forall i, j | 0 <= i < j < |us| ensures us[i].id < us[j].id {
        if j == |us| - 1 {
          assert us[i] in db.usuarios;
        }
      }
    }
  }

  /** A clock-in keeps the schema invariant, whatever the outcome. */
  lemma RegistrarPontoKeepsValid(db: Db, usuarioId: Option<int>, data: string, hora: string, updateFails: bool)
    requires Valid(db)
    ensures Valid(RegistrarPonto(db, usuarioId, data, hora, updateFails).db)
  {
    var r := RegistrarPonto(db, usuarioId, data, hora, updateFails);
    if TruthyId(usuarioId) {
      var us := r.db.usuarios;
      forall u | u in us ensures 1 <= u.id < r.db.nextUsuarioId {
        var k :| 0 <= k < |us| && us[k] == u;
        assert db.usuarios[k] in db.usuarios;
      }
      forall i, j | 0 <= i < j < |us| ensures us[i].id < us[j].id && us[i].email != us[j].email {
        assert SameAccount(us[i], db.usuarios[i]) && SameAccount(us[j], db.usuarios[j]);
      }
      var ps := r.db.pontos;
      forall i, j | 0 <= i < j < |ps| ensures ps[i].id < ps[j].id {
        if j == |ps| - 1 {
          assert ps[i] in db.pontos;
        }
      }
    }
  }

  // ---------------------------------------------------------------------
  // The ledger invariant

  /** Registration keeps the ledger: the new user starts at 0 coins and 0 pontos. */
  lemma CadastrarKeepsLedger(db: Db, nome: Option<string>, email: Option<string>, senha: Option<string>)
    requires Valid(db) && Ledger(db)
    ensures Ledger(Cadastrar(db, nome, email, senha).db)
  {
    var r := Cadastrar(db, nome, email, senha);
    if r.status == 201 {
      var novo := r.db.usuarios[|r.db.usuarios| - 1];
      forall p | p in db.pontos ensures p.usuarioId != novo.id {
        var u :| u in db.usuarios && Matches(u, IdIs(p.usuarioId));
      }
      CountNone(db.pontos, novo.id);
      forall p | p in r.db.pontos ensures Any(r.db.usuarios, IdIs(p.usuarioId)) {
        var u :| u in db.usuarios && Matches(u, IdIs(p.usuarioId));
        assert u in r.db.usuarios;
      }
    }
  }

  /**
    A clock-in for an existing user whose two writes both succeed keeps every
    balance equal to 10 coins per ponto, even when orphan pontos exist.
   */
  lemma RegistrarPontoKeepsBalance(db: Db, uid: int, data: string, hora: string)
    requires Valid(db) && Balanced(db)
    requires uid != 0 && Any(db.usuarios, IdIs(uid))
    ensures var r := RegistrarPonto(db, Some(uid), data, hora, false);
      r.status == 200 && Balanced(r.db)
  {
    var r := RegistrarPonto(db, Some(uid), data, hora, false);
    var p := Ponto(db.nextPontoId, uid, data, hora);
    var us := r.db.usuarios;
    assert r.db.pontos == db.pontos + [p];
    forall u | u in us ensures u.moedas == MoedasPorPonto * Count(r.db.pontos, u.id) {
      var k :| 0 <= k < |us| && us[k] == u;
      var before := db.usuarios[k];
      assert before in db.usuarios;
      assert before.id == u.id;
      assert before.moedas == MoedasPorPonto * Count(db.pontos, u.id);
      CountAppend(db.pontos, p, u.id);
    }
  }

  /** A clock-in for an existing user whose two writes both succeed keeps the ledger. */
  lemma RegistrarPontoKeepsLedger(db: Db, uid: int, data: string, hora: string)
    requires Valid(db) && Ledger(db)
    requires uid != 0 && Any(db.usuarios, IdIs(uid))
    ensures var r := RegistrarPonto(db, Some(uid), data, hora, false);
      r.status == 200 && Ledger(r.db)
  {
    RegistrarPontoKeepsBalance(db, uid, data, hora);
    var r := RegistrarPonto(db, Some(uid), data, hora, false);
    var us := r.db.usuarios;
    forall q | q in r.db.pontos ensures Any(us, IdIs(q.usuarioId)) {
      var u :| u in db.usuarios && Matches(u, IdIs(q.usuarioId));
      var k :| 0 <= k < |db.usuarios| && db.usuarios[k] == u;
      assert us[k] in us && Matches(us[k], IdIs(q.usuarioId));
    }
  }

  /**
    The first way the code breaks the ledger: when the UPDATE fails after the
    INSERT, the reply is 500, the ponto stays and the user is not credited.
   */
  lemma UpdateFailureBreaksBalance(db: Db, uid: int, data: string, hora: string)
    requires Valid(db) && Ledger(db)
    requires uid != 0 && Any(db.usuarios, IdIs(uid))
    ensures var r := RegistrarPonto(db, Some(uid), data, hora, true);
      && r.status == 500
      && |r.db.pontos| == |db.pontos| + 1
      && !Balanced(r.db)
  {
    var r := RegistrarPonto(db, Some(uid), data, hora, true);
    var p := Ponto(db.nextPontoId, uid, data, hora);
    var u :| u in db.usuarios && Matches(u, IdIs(uid));
    var k :| 0 <= k < |db.usuarios| && db.usuarios[k] == u;
    CountAppend(db.pontos, p, uid);
    assert r.db.usuarios[k].moedas == u.moedas;
    assert r.db.usuarios[k] in r.db.usuarios;
  }

  /**
    The second way: a clock-in for an id no user has still succeeds and
    reports 10 coins added, yet no balance changes and the new ponto is an
    orphan.
   */
  lemma OrphanPonto(db: Db, uid: int, data: string, hora: string)
    requires uid != 0 && !Any(db.usuarios, IdIs(uid))
    ensures var r := RegistrarPonto(db, Some(uid), data, hora, false);
      && r.status == 200
      && r.body == PontoRegistrado(MoedasPorPonto)
      && r.db.usuarios == db.usuarios
      && !NoOrphans(r.db)
  {
    var r := RegistrarPonto(db, Some(uid), data, hora, false);
    CreditNoMatch(db.usuarios, uid, MoedasPorPonto);
    assert r.db.pontos[|r.db.pontos| - 1] in r.db.pontos;
  }

  /**
    An orphan ponto carrying the next user id is inherited by the next user to
    register, who starts with 0 coins but one ponto: the ledger is broken.
   */
  lemma OrphanThenCadastrarBreaksBalance(db: Db, data: string, hora: string, nome: string, email: string, senha: string)
    requires Valid(db) && Ledger(db)
    requires nome != "" && email != "" && senha != ""
    requires !Any(db.usuarios, EmailIs(email))
    ensures var r1 := RegistrarPonto(db, Some(db.nextUsuarioId), data, hora, false);
      var r2 := Cadastrar(r1.db, Some(nome), Some(email), Some(senha));
      && r1.status == 200
      && r2.status == 201
      && !Balanced(r2.db)
  {
    var uid := db.nextUsuarioId;
    var r1 := RegistrarPonto(db, Some(uid), data, hora, false);
    assert r1.db.usuarios == db.usuarios;
    var r2 := Cadastrar(r1.db, Some(nome), Some(email), Some(senha));
    var novo := r2.db.usuarios[|r2.db.usuarios| - 1];
    assert novo.id == uid && novo.moedas == 0;
    CountAppend(db.pontos, Ponto(db.nextPontoId, uid, data, hora), uid);
    assert novo in r2.db.usuarios;
  }

  // ---------------------------------------------------------------------
  // The corrected clock-in

  /**
    POST /api/ponto as the schema and the ledger intend it: an unknown id is
    refused with 404, and the two writes form one transaction, so a failing
    UPDATE rolls the INSERT back, leaves the tables as they were and says
    that no ponto was recorded.
   */
  function RegistrarPontoAtomico(db: Db, usuarioId: Option<int>, data: string, hora: string, updateFails: bool): (r: Reply)
    ensures r.status == 200 || r.status == 400 || r.status == 404 || r.status == 500
    ensures r.status == 400 <==> !TruthyId(usuarioId)
    ensures r.status == 404 <==> TruthyId(usuarioId) && !Any(db.usuarios, IdIs(usuarioId.value))
    ensures r.status == 500 <==> TruthyId(usuarioId) && Any(db.usuarios, IdIs(usuarioId.value)) && updateFails
    ensures r.status == 400 ==> r.body == Erro(IdObrigatorio)
    ensures r.status == 404 ==> r.body == Erro(UsuarioNaoEncontrado)
    ensures r.status == 500 ==> r.body == Erro(PontoNaoRegistrado)
    ensures r.status != 200 ==> r.db == db
    ensures r.status == 200 ==> r == RegistrarPonto(db, usuarioId, data, hora, false)
  {
    if !TruthyId(usuarioId) then
      Reply(400, Erro(IdObrigatorio), db)
    else if Select(db.usuarios, IdIs(usuarioId.value)).None? then
      Reply(404, Erro(UsuarioNaoEncontrado), db)
    else if updateFails then
      Reply(500, Erro(PontoNaoRegistrado), db)
    else
      RegistrarPonto(db, usuarioId, data, hora, false)
  }

  /** The corrected clock-in keeps both invariants on every input. */
  lemma RegistrarPontoAtomicoKeepsLedger(db: Db, usuarioId: Option<int>, data: string, hora: string, updateFails: bool)
    requires Valid(db) && Ledger(db)
    ensures var r := RegistrarPontoAtomico(db, usuarioId, data, hora, updateFails);
      Valid(r.db) && Ledger(r.db)
  {
    var r := RegistrarPontoAtomico(db, usuarioId, data, hora, updateFails);
    if r.status == 200 {
      RegistrarPontoKeepsValid(db, usuarioId, data, hora, false);
      RegistrarPontoKeepsLedger(db, usuarioId.value, data, hora);
    }
  }

  // ---------------------------------------------------------------------
  // Request traces

  /** One HTTP request to the server, with the host-provided inputs it needs. */
  datatype Request =
    | CadastrarReq(nome: Option<string>, email: Option<string>, senha: Option<string>)
    | LoginReq(email: Option<string>, senha: Option<string>)
    | PontoReq(usuarioId: Option<int>, data: string, hora: string, updateFails: bool)
    | MoedasReq(id: int)
    | PontosReq(id: int)

  /** Dispatch with the corrected clock-in. */
  function Handle(db: Db, req: Request): Reply
  {
    match req
    case CadastrarReq(n, e, s) => Cadastrar(db, n, e, s)
    case LoginReq(e, s) => Login(db, e, s)
    case PontoReq(id, d, h, f) => RegistrarPontoAtomico(db, id, d, h, f)
    case MoedasReq(id) => Moedas(db, id)
    case PontosReq(id) => Pontos(db, id)
  }

  /** Dispatch as the server is written. */
  function HandleAsWritten(db: Db, req: Request): Reply
  {
    match req
    case PontoReq(id, d, h, f) => RegistrarPonto(db, id, d, h, f)
    case _ => Handle(db, req)
  }

  /** The tables after serving the requests one after another. */
  function Run(db: Db, reqs: seq<Request>): Db
    decreases |reqs|
  {
    if |reqs| == 0 then db else Run(Handle(db, reqs[0]).db, reqs[1..])
  }

  function RunAsWritten(db: Db, reqs: seq<Request>): Db
    decreases |reqs|
  {
    if |reqs| == 0 then db else RunAsWritten(HandleAsWritten(db, reqs[0]).db, reqs[1..])
  }

  /** With the corrected clock-in, every single request keeps both invariants. */
  lemma HandleKeepsLedger(db: Db, req: Request)
    requires Valid(db) && Ledger(db)
    ensures Valid(Handle(db, req).db) && Ledger(Handle(db, req).db)
  {
    match req {
      case CadastrarReq(n, e, s) =>
        CadastrarKeepsValid(db, n, e, s);
        CadastrarKeepsLedger(db, n, e, s);
      case PontoReq(id, d, h, f) =>
        RegistrarPontoAtomicoKeepsLedger(db, id, d, h, f);
      case _ =>
    }
  }

  /** With the corrected clock-in, no sequence of requests can break the ledger. */
  lemma {:induction false} RunKeepsLedger(db: Db, reqs: seq<Request>)
    requires Valid(db) && Ledger(db)
    ensures Valid(Run(db, reqs)) && Ledger(Run(db, reqs))
    decreases |reqs|
  {
    if |reqs| > 0 {
      var next := Handle(db, reqs[0]).db;
      HandleKeepsLedger(db, reqs[0]);
      RunKeepsLedger(next, reqs[1..]);
      assert Run(db, reqs) == Run(next, reqs[1..]);
    }
  }

  /** As written, two requests from a fresh database already break the ledger. */
  lemma RunAsWrittenBreaksLedger()
    ensures var reqs := [PontoReq(Some(1), "01/01/2025", "08:00:00", false),
                         CadastrarReq(Some("Ana"), Some("ana@example.com"), Some("x"))];
      Ledger(Run(Empty, reqs)) && !Balanced(RunAsWritten(Empty, reqs))
  {
    var reqs := [PontoReq(Some(1), "01/01/2025", "08:00:00", false),
                 CadastrarReq(Some("Ana"), Some("ana@example.com"), Some("x"))];
    assert reqs[1..][1..] == [];
    var after := RunAsWritten(Empty, reqs);
    assert after.usuarios == [Usuario(1, "Ana", "ana@example.com", "x", 0)];
    CountAppend([], Ponto(1, 1, "01/01/2025", "08:00:00"), 1);
    assert after.usuarios[0] in after.usuarios;
    RunKeepsLedger(Empty, reqs);
  }
}
