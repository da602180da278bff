/**
  The two tables of the attendance server, `usuarios` and `pontos`, as one
  immutable value, together with the queries the route handlers issue against
  them and the invariants the tables are meant to keep.

  Both tables use `INTEGER PRIMARY KEY AUTOINCREMENT`: ids start at 1 and a
  new row takes the next counter value. Nothing is ever deleted, so each table
  is kept as a sequence in increasing id (rowid) order, which is also the order
  in which SQLite returns rows when a query has no ORDER BY.
 */
module Store {

  datatype Option<+T> = None | Some(value: T)

  /** Coins credited for one clock-in (`moedasGanhas`). */
  const MoedasPorPonto: int := 10

  /** A row of `usuarios`. The balance column defaults to 0. */
  datatype Usuario = Usuario(id: int, nome: string, email: string, senha: string, moedas: int)

  /** A row of `pontos`: one clock-in event for `usuarioId`. */
  datatype Ponto = Ponto(id: int, usuarioId: int, data: string, hora: string)

  /** The whole database, with the two AUTOINCREMENT counters. */
  datatype Db = Db(usuarios: seq<Usuario>, pontos: seq<Ponto>, nextUsuarioId: int, nextPontoId: int)

  /** A freshly created database file. */
  const Empty: Db := Db([], [], 1, 1)

  /** The WHERE clauses the handlers use on `usuarios`. */
  datatype Where =
    | IdIs(id: int)
    | EmailIs(email: string)
    | CredentialsAre(email: string, senha: string)

  predicate Matches(u: Usuario, w: Where)
  {
    match w
    case IdIs(id) => u.id == id
    case EmailIs(e) => u.email == e
    case CredentialsAre(e, s) => u.email == e && u.senha == s
  }

  /** Some row of `us` satisfies the WHERE clause. */
  predicate Any(us: seq<Usuario>, w: Where)
  {
    exists u :: u in us && Matches(u, w)
  }

  /** At most one row of `us` satisfies the WHERE clause. */
  predicate AtMostOne(us: seq<Usuario>, w: Where)
  {
    forall i, j :: 0 <= i < |us| && 0 <= j < |us| && Matches(us[i], w) && Matches(us[j], w) ==> i == j
  }

  /** `db.get(SELECT ... FROM usuarios WHERE w)`: the first matching row, if any. */
  function Select(us: seq<Usuario>, w: Where): (r: Option<Usuario>)
    ensures r.Some? <==> Any(us, w)
    ensures r.Some? ==> r.value in us && Matches(r.value, w)
    ensures AtMostOne(us, w) ==> forall u :: u in us && Matches(u, w) ==> r == Some(u)
  {
    if |us| == 0 then None
    else if Matches(us[0], w) then Some(us[0])
    else
      var r := Select(us[1..], w);
      assert forall u :: u in us && u != us[0] ==> u in us[1..];
      r
  }

  /** Two rows describe the same account: everything but the balance agrees. */
  predicate SameAccount(a: Usuario, b: Usuario)
  {
    a.id == b.id && a.nome == b.nome && a.email == b.email && a.senha == b.senha
  }

  /** `UPDATE usuarios SET moedas = moedas + amount WHERE id = id`. */
  function Credit(us: seq<Usuario>, id: int, amount: int): (r: seq<Usuario>)
    ensures |r| == |us|
    ensures forall i :: 0 <= i < |us| ==> SameAccount(r[i], us[i])
    ensures forall i :: 0 <= i < |us| ==>
      r[i].moedas == us[i].moedas + (if us[i].id == id then amount else 0)
  {
    seq(|us|, i requires 0 <= i < |us| =>
      if us[i].id == id then us[i].(moedas := us[i].moedas + amount) else us[i])
  }

  /** An UPDATE whose WHERE clause matches no row changes nothing. */
  lemma CreditNoMatch(us: seq<Usuario>, id: int, amount: int)
    requires !Any(us, IdIs(id))
    ensures Credit(us, id, amount) == us
  {
    var r := Credit(us, id, amount);
    forall i | 0 <= i < |us| ensures r[i] == us[i] {
      assert !Matches(us[i], IdIs(id));
    }
  }

  /** Number of clock-ins recorded for user `uid`. */
  function Count(ps: seq<Ponto>, uid: int): nat
  {
    if |ps| == 0 then 0
    else Count(ps[..|ps| - 1], uid) + (if ps[|ps| - 1].usuarioId == uid then 1 else 0)
  }

  lemma CountAppend(ps: seq<Ponto>, p: Ponto, uid: int)
    ensures Count(ps + [p], uid) == Count(ps, uid) + (if p.usuarioId == uid then 1 else 0)
  {
    assert (ps + [p])[..|ps|] == ps;
  }

  /** A user with no pontos has a zero count. */
  lemma {:induction false} CountNone(ps: seq<Ponto>, uid: int)
    requires forall p :: p in ps ==> p.usuarioId != uid
    ensures Count(ps, uid) == 0
  {
    if |ps| > 0 {
      assert ps[..|ps| - 1] + [ps[|ps| - 1]] == ps;
      CountNone(ps[..|ps| - 1], uid);
    }
  }

  predicate PontoIdsDecreasing(ps: seq<Ponto>)
  {
    forall i, j :: 0 <= i < j < |ps| ==> ps[i].id > ps[j].id
  }

  /**
    Two lists in strictly decreasing id order that hold the same pontos are
    the same list: an ORDER BY id DESC result is determined by its rows.
   */
  lemma {:induction false} DecreasingUnique(a: seq<Ponto>, b: seq<Ponto>)
    requires PontoIdsDecreasing(a) && PontoIdsDecreasing(b)
    requires forall p :: p in a <==> p in b
    ensures a == b
    decreases |a|
  {
    if |a| > 0 {
      assert a[0] in b;
    }
    if |b| > 0 {
      assert b[0] in a;
    }
    if |a| > 0 {
      var i :| 0 <= i < |a| && a[i] == b[0];
      var j :| 0 <= j < |b| && b[j] == a[0];
      assert a[i].id <= a[0].id && b[j].id <= b[0].id;
      assert j == 0;
      forall p ensures p in a[1..] <==> p in b[1..] {
        if p in a[1..] {
          var k :| 1 <= k < |a| && a[k] == p;
          assert p in b && p != b[0];
        }
        if p in b[1..] {
          var k :| 1 <= k < |b| && b[k] == p;
          assert p in a && p != a[0];
        }
      }
      DecreasingUnique(a[1..], b[1..]);
      assert a == [a[0]] + a[1..] && b == [b[0]] + b[1..];
    }
  }

  /**
    `SELECT ... FROM pontos WHERE usuario_id = uid ORDER BY id DESC`: exactly the
    clock-ins of `uid`, newest first, as many as `Count` says.
   */
  function SelectPontos(ps: seq<Ponto>, uid: int): (r: seq<Ponto>)
    ensures forall p :: p in r <==> p in ps && p.usuarioId == uid
    ensures |r| == Count(ps, uid)
    ensures PontoIdsIncreasing(ps) ==> PontoIdsDecreasing(r)
  {
    if |ps| == 0 then []
    else
      var last := ps[|ps| - 1];
      var older := ps[..|ps| - 1];
      var rest := SelectPontos(older, uid);
      assert ps == older + [last];
      if last.usuarioId == uid then
        NewestFirst(older, last, rest);
        [last] + rest
      else rest
  }

  /** Prepending the newest clock-in keeps a selection in decreasing id order. */
  lemma NewestFirst(older: seq<Ponto>, last: Ponto, rest: seq<Ponto>)
    requires forall p :: p in rest ==> p in older
    requires PontoIdsIncreasing(older + [last]) ==> PontoIdsDecreasing(rest)
    ensures PontoIdsIncreasing(older + [last]) ==> PontoIdsDecreasing([last] + rest)
  {
    var ps := older + [last];
    if PontoIdsIncreasing(ps) {
      forall p | p in rest ensures p.id < last.id {
        var k :| 0 <= k < |older| && older[k] == p;
        assert ps[k] == p && ps[|older|] == last;
      }
      var r := [last] + rest;
      forall i, j | 0 <= i < j < |r| ensures r[i].id > r[j].id {
        if i > 0 {
          assert r[i] == rest[i - 1] && r[j] == rest[j - 1];
        } else {
          assert r[j] in rest;
        }
      }
    }
  }

  predicate UsuarioIdsIncreasing(us: seq<Usuario>)
  {
    forall i, j :: 0 <= i < j < |us| ==> us[i].id < us[j].id
  }

  predicate PontoIdsIncreasing(ps: seq<Ponto>)
  {
    forall i, j :: 0 <= i < j < |ps| ==> ps[i].id < ps[j].id
  }

  /** The UNIQUE constraint on `usuarios.email`. */
  predicate EmailsUnique(us: seq<Usuario>)
  {
    forall i, j :: 0 <= i < j < |us| ==> us[i].email != us[j].email
  }

  /**
    What the schema guarantees of any reachable database: ids are positive,
    increasing and below their AUTOINCREMENT counter, and emails are unique.
   */
  predicate Valid(db: Db)
  {
    && db.nextUsuarioId >= 1
    && db.nextPontoId >= 1
    && (forall u :: u in db.usuarios ==> 1 <= u.id < db.nextUsuarioId)
    && (forall p :: p in db.pontos ==> 1 <= p.id < db.nextPontoId)
    && UsuarioIdsIncreasing(db.usuarios)
    && PontoIdsIncreasing(db.pontos)
    && EmailsUnique(db.usuarios)
  }

  /** With increasing ids, a lookup by id matches at most one row. */
  lemma UniqueIdsAtMostOne(us: seq<Usuario>, id: int)
    requires UsuarioIdsIncreasing(us)
    ensures AtMostOne(us, IdIs(id))
  {
    forall i, j | 0 <= i < j < |us|
      ensures !(Matches(us[i], IdIs(id)) && Matches(us[j], IdIs(id)))
    {
      assert us[i].id < us[j].id;
    }
  }

  /** With unique emails, a lookup by email (with or without senha) matches at most one row. */
  lemma UniqueEmailsAtMostOne(us: seq<Usuario>, w: Where)
    requires EmailsUnique(us) && !w.IdIs?
    ensures AtMostOne(us, w)
  {
    forall i, j | 0 <= i < j < |us|
      ensures !(Matches(us[i], w) && Matches(us[j], w))
    {
      assert us[i].email != us[j].email;
    }
  }

  /** Every user's balance is the reward for each of their clock-ins. */
  predicate Balanced(db: Db)
  {
    forall u :: u in db.usuarios ==> u.moedas == MoedasPorPonto * Count(db.pontos, u.id)
  }

  /** Every clock-in belongs to an existing user (the declared FOREIGN KEY). */
  predicate NoOrphans(db: Db)
  {
    forall p :: p in db.pontos ==> Any(db.usuarios, IdIs(p.usuarioId))
  }

  /** The ledger invariant: balances agree with the event log, which has no orphans. */
  predicate Ledger(db: Db)
  {
    Balanced(db) && NoOrphans(db)
  }
}
