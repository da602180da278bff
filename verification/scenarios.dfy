/**
  How the handlers answer each other: what a query returns right after a
  registration or a clock-in, and what the balance and history queries agree
  on while the ledger holds.
 */
module Scenarios {
  import opened Store
  import opened Routes
  import opened Consistency

  /**
    After a successful registration the same credentials log in as the new
    user, whose balance is 0 and whose history is empty.
   */
  lemma CadastrarThenQueries(db: Db, nome: string, email: string, senha: string)
    requires Valid(db) && Ledger(db)
    requires nome != "" && email != "" && senha != ""
    requires !Any(db.usuarios, EmailIs(email))
    ensures var r := Cadastrar(db, Some(nome), Some(email), Some(senha));
      && r.status == 201
      && r.body.Cadastrado?
      && Login(r.db, Some(email), Some(senha)).status == 200
      && Login(r.db, Some(email), Some(senha)).body == Logado(Perfil(r.body.usuarioId, nome, email, 0))
      && Moedas(r.db, r.body.usuarioId).body == Saldo(0)
      && Pontos(r.db, r.body.usuarioId).body == Historico([])
  {
    var r := Cadastrar(db, Some(nome), Some(email), Some(senha));
    CadastrarKeepsValid(db, Some(nome), Some(email), Some(senha));
    CadastrarKeepsLedger(db, Some(nome), Some(email), Some(senha));
    var novo := r.db.usuarios[|r.db.usuarios| - 1];
    assert novo in r.db.usuarios && Matches(novo, CredentialsAre(email, senha));
    assert novo in r.db.usuarios && Matches(novo, IdIs(r.body.usuarioId));
    assert r.db.pontos == db.pontos;
    forall p | p in db.pontos ensures p.usuarioId != novo.id {
      var u :| u in db.usuarios && Matches(u, IdIs(p.usuarioId));
    }
  }

  /** Prepending the newest ponto: what the history query sees after an INSERT. */
  lemma SelectPontosAppend(ps: seq<Ponto>, p: Ponto, uid: int)
    ensures SelectPontos(ps + [p], uid) ==
      (if p.usuarioId == uid then [p] else []) + SelectPontos(ps, uid)
  {
    assert (ps + [p])[..|ps|] == ps;
  }

  /** The balance query answers with the stored balance of the user with that id. */
  lemma MoedasOfUser(db: Db, u: Usuario)
    requires UsuarioIdsIncreasing(db.usuarios) && u in db.usuarios
    ensures Moedas(db, u.id).body == Saldo(u.moedas)
  {
    assert Matches(u, IdIs(u.id));
  }

  /** The row of `u` after a clock-in whose UPDATE succeeds. */
  lemma CreditedRow(db: Db, u: Usuario, data: string, hora: string) returns (u': Usuario)
    requires u in db.usuarios && u.id != 0
    ensures var r := RegistrarPonto(db, Some(u.id), data, hora, false);
      u' in r.db.usuarios && u'.id == u.id && u'.moedas == u.moedas + MoedasPorPonto
  {
    var r := RegistrarPonto(db, Some(u.id), data, hora, false);
    var k :| 0 <= k < |db.usuarios| && db.usuarios[k] == u;
    u' := r.db.usuarios[k];
  }

  /**
    After a clock-in whose writes both succeed, the balance query shows 10
    more coins and the history query lists the new date and time first.
   */
  lemma RegistrarPontoThenQueries(db: Db, u: Usuario, data: string, hora: string)
    requires Valid(db) && u in db.usuarios && u.id != 0
    ensures var r := RegistrarPonto(db, Some(u.id), data, hora, false);
      && Moedas(r.db, u.id).body == Saldo(u.moedas + MoedasPorPonto)
      && Pontos(r.db, u.id).body.pontos == [Registro(data, hora)] + Pontos(db, u.id).body.pontos
  {
    var r := RegistrarPonto(db, Some(u.id), data, hora, false);
    assert Moedas(r.db, u.id).body == Saldo(u.moedas + MoedasPorPonto) by {
      RegistrarPontoKeepsValid(db, Some(u.id), data, hora, false);
      var u' := CreditedRow(db, u, data, hora);
      MoedasOfUser(r.db, u');
    }
    var p := Ponto(db.nextPontoId, u.id, data, hora);
    assert r.db.pontos == db.pontos + [p];
    HistoricoAfterInsert(db.pontos, p);
  }

  /** After an INSERT, the owner's history lists the new date and time first. */
  lemma HistoricoAfterInsert(ps: seq<Ponto>, p: Ponto)
    ensures Registros(SelectPontos(ps + [p], p.usuarioId))
         == [Registro(p.data, p.hora)] + Registros(SelectPontos(ps, p.usuarioId))
  {
    var sel := SelectPontos(ps, p.usuarioId);
    SelectPontosAppend(ps, p, p.usuarioId);
    assert SelectPontos(ps + [p], p.usuarioId) == [p] + sel;
    assert Registros([p] + sel) == [Registro(p.data, p.hora)] + Registros(sel);
  }

  /** While the ledger holds, a user's balance is 10 coins per listed ponto. */
  lemma SaldoMatchesHistorico(db: Db, uid: int)
    requires Valid(db) && Balanced(db) && Any(db.usuarios, IdIs(uid))
    ensures Moedas(db, uid).body == Saldo(MoedasPorPonto * |Pontos(db, uid).body.pontos|)
  {
    var u :| u in db.usuarios && Matches(u, IdIs(uid));
  }

  /** An id no user has lists no pontos, and the reply is still 200, not 404. */
  lemma PontosUnknownId(db: Db, uid: int)
    requires NoOrphans(db) && !Any(db.usuarios, IdIs(uid))
    ensures Pontos(db, uid).status == 200
    ensures Pontos(db, uid).body == Historico([])
  {
    forall p | p in db.pontos ensures p.usuarioId != uid {
      var u :| u in db.usuarios && Matches(u, IdIs(p.usuarioId));
    }
    CountNone(db.pontos, uid);
  }

  /** The tables after the user clocks in once per (date, time) stamp, every write succeeding. */
  function Repetir(db: Db, uid: int, stamps: seq<Registro>): Db
    decreases |stamps|
  {
    if |stamps| == 0 then db
    else Repetir(RegistrarPonto(db, Some(uid), stamps[0].data, stamps[0].hora, false).db, uid, stamps[1..])
  }

  /** The user's row and clock-in count after `Repetir`. */
  lemma {:induction false} RepetirRow(db: Db, u: Usuario, stamps: seq<Registro>) returns (v: Usuario)
    requires Valid(db) && u in db.usuarios && u.id != 0
    ensures var after := Repetir(db, u.id, stamps);
      && Valid(after)
      && v in after.usuarios && v.id == u.id
      && v.moedas == u.moedas + MoedasPorPonto * |stamps|
      && Count(after.pontos, u.id) == Count(db.pontos, u.id) + |stamps|
    decreases |stamps|
  {
    if |stamps| == 0 {
      v := u;
    } else {
      var d, h := stamps[0].data, stamps[0].hora;
      var r := RegistrarPonto(db, Some(u.id), d, h, false);
      RegistrarPontoKeepsValid(db, Some(u.id), d, h, false);
      var u' := CreditedRow(db, u, d, h);
      CountAppend(db.pontos, Ponto(db.nextPontoId, u.id, d, h), u.id);
      v := RepetirRow(r.db, u', stamps[1..]);
    }
  }

  /**
    N successful clock-ins add N * 10 coins to the balance and N entries to
    the history.
   */
  lemma RepetirCredits(db: Db, u: Usuario, stamps: seq<Registro>)
    requires Valid(db) && u in db.usuarios && u.id != 0
    ensures var after := Repetir(db, u.id, stamps);
      && Moedas(after, u.id).body == Saldo(u.moedas + MoedasPorPonto * |stamps|)
      && |Pontos(after, u.id).body.pontos| == |Pontos(db, u.id).body.pontos| + |stamps|
  {
    var v := RepetirRow(db, u, stamps);
    MoedasOfUser(Repetir(db, u.id, stamps), v);
  }
}
