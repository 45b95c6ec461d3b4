/** The three routes of the server: the public lookup `GET /api/zap` and the
    admin routes `POST /admin/save-zap` and `DELETE /admin/delete-zap`, both
    behind `adminAuth`.

    Each route is specified by a function from the collection and the request
    to the response and the new collection; the handler methods, which call
    the store the way the source does, are proved to follow it. */
module Server {
  import opened Wrappers
  import opened Http
  import opened Domain
  import opened Phone
  import opened Models
  import opened Middlewares

  const EmptyNumero := Response(Ok, Numero(""))
  const DomainRequiredResponse := Response(BadRequest, Error("domain obrigatório"))
  const LookupFailed := Response(InternalServerError, Error("Erro ao buscar número do WhatsApp"))
  const SaveFailed := Response(InternalServerError, Error("Erro ao salvar número do WhatsApp"))
  const DeleteFailed := Response(InternalServerError, Error("Erro ao apagar número"))
  const Saved := Response(Ok, Message("Número atualizado com sucesso."))
  const Deleted := Response(Ok, Message("Config apagada com sucesso."))

  /** The JSON body of an admin request; each field may be missing. */
  datatype ZapBody = ZapBody(domain: Option<string>, numero: Option<string>)

  /** A response together with the collection after the request. */
  datatype Outcome = Outcome(response: Response, docs: map<string, ZapConfig>)

  /** `config?.numero || ""`. */
  function NumeroOf(config: Option<ZapConfig>): string {
    if config.Some? then config.value.numero else ""
  }

  /** `GET /api/zap` once the `domain` query parameter is normalised. */
  function GetZapFor(docs: map<string, ZapConfig>, domain: string, conn: Connection): (res: Response)
    ensures res.status == Ok || res == LookupFailed
    ensures res == LookupFailed <==> domain != "" && conn.Unavailable?
    ensures domain == "" ==> res == EmptyNumero
    ensures res.status == Ok ==> res.body.Numero?
  {
    if domain == "" then EmptyNumero
    else if conn.Unavailable? then LookupFailed
    else Response(Ok, Numero(NumeroOf(Find(docs, domain))))
  }

  /** `GET /api/zap?domain=...`. */
  function GetZap(docs: map<string, ZapConfig>, domainParam: Option<string>, conn: Connection): Response {
    GetZapFor(docs, NormalizeDomain(domainParam), conn)
  }

  /** `POST /admin/save-zap` once `domain` and `numero` are normalised. */
  function SaveZapFor(docs: map<string, ZapConfig>, domain: string, numero: string, conn: Connection, now: Time): (o: Outcome)
    ensures domain == "" ==> o == Outcome(DomainRequiredResponse, docs)
    ensures o.response == SaveFailed <==> domain != "" && conn.Unavailable?
    ensures o.response == SaveFailed ==> o.docs == docs
    ensures o.response == Saved <==> domain != "" && conn.Available?
  {
    if domain == "" then Outcome(DomainRequiredResponse, docs)
    else if conn.Unavailable? then Outcome(SaveFailed, docs)
    else Outcome(Saved, Upsert(docs, domain, numero, now))
  }

  /** `POST /admin/save-zap` after `adminAuth` has let the request through. */
  function SaveZap(docs: map<string, ZapConfig>, body: ZapBody, conn: Connection, now: Time): Outcome {
    SaveZapFor(docs, NormalizeDomain(body.domain), NormalizePhone(body.numero), conn, now)
  }

  /** `DELETE /admin/delete-zap` once `domain` is normalised. */
  function DeleteZapFor(docs: map<string, ZapConfig>, domain: string, conn: Connection): (o: Outcome)
    ensures domain == "" ==> o == Outcome(DomainRequiredResponse, docs)
    ensures o.response == DeleteFailed <==> domain != "" && conn.Unavailable?
    ensures o.response == DeleteFailed ==> o.docs == docs
    ensures o.response == Deleted <==> domain != "" && conn.Available?
  {
    if domain == "" then Outcome(DomainRequiredResponse, docs)
    else if conn.Unavailable? then Outcome(DeleteFailed, docs)
    else Outcome(Deleted, Remove(docs, domain))
  }

  /** `DELETE /admin/delete-zap` after `adminAuth` has let the request
      through. */
  function DeleteZap(docs: map<string, ZapConfig>, body: ZapBody, conn: Connection): Outcome {
    DeleteZapFor(docs, NormalizeDomain(body.domain), conn)
  }

  /** `app.post("/admin/save-zap", adminAuth, ...)`. */
  function SaveZapRoute(docs: map<string, ZapConfig>, secretHeader: Option<string>, adminSecret: Option<string>,
                        body: ZapBody, conn: Connection, now: Time): (o: Outcome)
    ensures AdminAuth(secretHeader, adminSecret).Reject? ==> o == Outcome(UnauthorizedResponse, docs)
    ensures AdminAuth(secretHeader, adminSecret).Next? ==> o == SaveZap(docs, body, conn, now)
  {
    match AdminAuth(secretHeader, adminSecret)
    case Reject(response) => Outcome(response, docs)
    case Next => SaveZap(docs, body, conn, now)
  }

  /** `app.delete("/admin/delete-zap", adminAuth, ...)`. */
  function DeleteZapRoute(docs: map<string, ZapConfig>, secretHeader: Option<string>, adminSecret: Option<string>,
                          body: ZapBody, conn: Connection): (o: Outcome)
    ensures AdminAuth(secretHeader, adminSecret).Reject? ==> o == Outcome(UnauthorizedResponse, docs)
    ensures AdminAuth(secretHeader, adminSecret).Next? ==> o == DeleteZap(docs, body, conn)
  {
    match AdminAuth(secretHeader, adminSecret)
    case Reject(response) => Outcome(response, docs)
    case Next => DeleteZap(docs, body, conn)
  }

  // The handlers, calling the store in place.

  /** The handler of `GET /api/zap`: consults the store only for a non-empty
      domain. */
  method HandleGetZap(db: ZapConfigs, domainParam: Option<string>, conn: Connection) returns (res: Response)
    ensures res == GetZap(db.docs, domainParam, conn)
  {
    var domain := NormalizeDomain(domainParam);
    if domain == "" {
      return EmptyNumero;
    }
    var found := db.FindOne(domain, conn);
    match found {
      case Failure(_) =>
        res := LookupFailed;
      case Success(config) =>
        res := Response(Ok, Numero(NumeroOf(config)));
    }
  }

  /** The handler of `POST /admin/save-zap`. */
  method HandleSaveZap(db: ZapConfigs, body: ZapBody, conn: Connection, now: Time) returns (res: Response)
    modifies db
    ensures Outcome(res, db.docs) == SaveZap(old(db.docs), body, conn, now)
    ensures old(db.Valid()) ==> db.Valid()
  {
    var domain := NormalizeDomain(body.domain);
    var numero := NormalizePhone(body.numero);
    if domain == "" {
      return DomainRequiredResponse;
    }
    var updated := db.FindOneAndUpdate(domain, numero, now, conn);
    if updated.Failure? {
      return SaveFailed;
    }
    res := Saved;
  }

  /** The handler of `DELETE /admin/delete-zap`. */
  method HandleDeleteZap(db: ZapConfigs, body: ZapBody, conn: Connection) returns (res: Response)
    modifies db
    ensures Outcome(res, db.docs) == DeleteZap(old(db.docs), body, conn)
    ensures old(db.Valid()) ==> db.Valid()
  {
    var domain := NormalizeDomain(body.domain);
    if domain == "" {
      return DomainRequiredResponse;
    }
    var deleted := db.DeleteOne(domain, conn);
    if deleted.Failure? {
      return DeleteFailed;
    }
    res := Deleted;
  }

  /** `POST /admin/save-zap` with its `adminAuth` guard in front. */
  method SaveZapEndpoint(db: ZapConfigs, secretHeader: Option<string>, adminSecret: Option<string>,
                         body: ZapBody, conn: Connection, now: Time) returns (res: Response)
    modifies db
    ensures Outcome(res, db.docs) == SaveZapRoute(old(db.docs), secretHeader, adminSecret, body, conn, now)
    ensures old(db.Valid()) ==> db.Valid()
  {
    var decision := AdminAuth(secretHeader, adminSecret);
    if decision.Reject? {
      return decision.response;
    }
    res := HandleSaveZap(db, body, conn, now);
  }

  /** `DELETE /admin/delete-zap` with its `adminAuth` guard in front. */
  method DeleteZapEndpoint(db: ZapConfigs, secretHeader: Option<string>, adminSecret: Option<string>,
                           body: ZapBody, conn: Connection) returns (res: Response)
    modifies db
    ensures Outcome(res, db.docs) == DeleteZapRoute(old(db.docs), secretHeader, adminSecret, body, conn)
    ensures old(db.Valid()) ==> db.Valid()
  {
    var decision := AdminAuth(secretHeader, adminSecret);
    if decision.Reject? {
      return decision.response;
    }
    res := HandleDeleteZap(db, body, conn);
  }

  // What the routes promise, stated over their specifications.

  /** An empty domain is answered with an empty number without consulting
      the store: the answer is the same whatever the store holds and whether
      or not it is reachable. */
  lemma GetZapEmptyDomainSkipsStore(docs1: map<string, ZapConfig>, docs2: map<string, ZapConfig>,
                                    domainParam: Option<string>, conn1: Connection, conn2: Connection)
    requires NormalizeDomain(domainParam) == ""
    ensures GetZap(docs1, domainParam, conn1) == GetZap(docs2, domainParam, conn2) == EmptyNumero
  {
  }

  /** With a reachable store the lookup always succeeds: the number of the
      document whose `domain` field matches, or `""` when there is none;
      never "not found". */
  lemma GetZapAnswers(docs: map<string, ZapConfig>, domain: string)
    requires TableValid(docs)
    ensures GetZapFor(docs, domain, Available) ==
      Response(Ok, Numero(if exists c :: c in docs.Values && c.domain == domain then docs[domain].numero else ""))
  {
    if domain in docs {
      assert docs[domain] in docs.Values;
    }
  }

  /** After a save the domain is looked up as the saved number. */
  lemma SaveThenGetFor(docs: map<string, ZapConfig>, domain: string, numero: string, now: Time)
    requires domain != ""
    ensures GetZapFor(SaveZapFor(docs, domain, numero, Available, now).docs, domain, Available) == Response(Ok, Numero(numero))
  {
  }

  /** After a save, looking up any spelling of the same domain answers the
      saved number in its normalised form. */
  lemma SaveThenGet(docs: map<string, ZapConfig>, body: ZapBody, now: Time, domainParam: Option<string>)
    requires NormalizeDomain(domainParam) == NormalizeDomain(body.domain) != ""
    ensures GetZap(SaveZap(docs, body, Available, now).docs, domainParam, Available) ==
      Response(Ok, Numero(NormalizePhone(body.numero)))
  {
    SaveThenGetFor(docs, NormalizeDomain(body.domain), NormalizePhone(body.numero), now);
  }

  /** A save into a valid collection keeps it valid, files exactly one
      document under the domain holding the number and the save time, and
      leaves every other domain as it was. */
  lemma SaveZapStores(docs: map<string, ZapConfig>, domain: string, numero: string, now: Time)
    requires TableValid(docs) && domain != ""
    ensures var o := SaveZapFor(docs, domain, numero, Available, now);
      && o.response == Saved
      && TableValid(o.docs)
      && o.docs[domain] == ZapConfig(domain, numero, now)
      && WithDomain(o.docs, domain) == {domain}
      && (forall k :: k != domain ==> (k in o.docs <==> k in docs) && (k in docs ==> o.docs[k] == docs[k]))
  {
    UpsertSpec(docs, domain, numero, now);
    TableValidUnique(Upsert(docs, domain, numero, now), domain);
  }

  /** Saving the same domain again replaces its document rather than adding
      one: the collection has as many documents as after the first save, and
      the later number wins. */
  lemma SaveZapTwice(docs: map<string, ZapConfig>, domain: string, numero1: string, numero2: string, t1: Time, t2: Time)
    requires TableValid(docs) && domain != ""
    ensures var o1 := SaveZapFor(docs, domain, numero1, Available, t1);
      var o2 := SaveZapFor(o1.docs, domain, numero2, Available, t2);
      && |o2.docs| == |o1.docs|
      && o2.docs[domain] == ZapConfig(domain, numero2, t2)
      && WithDomain(o2.docs, domain) == {domain}
  {
    var o1 := SaveZapFor(docs, domain, numero1, Available, t1);
    UpsertSpec(docs, domain, numero1, t1);
    UpsertSpec(o1.docs, domain, numero2, t2);
    TableValidUnique(Upsert(o1.docs, domain, numero2, t2), domain);
  }

  /** After a delete the domain is looked up as `""`, and every other domain
      is unchanged. */
  lemma DeleteThenGetFor(docs: map<string, ZapConfig>, domain: string)
    requires domain != ""
    ensures var o := DeleteZapFor(docs, domain, Available);
      && GetZapFor(o.docs, domain, Available) == EmptyNumero
      && (forall k :: k != domain ==> (k in o.docs <==> k in docs) && (k in docs ==> o.docs[k] == docs[k]))
  {
    RemoveSpec(docs, domain);
  }

  /** After a delete, every spelling of the domain is looked up as `""`. */
  lemma DeleteThenGet(docs: map<string, ZapConfig>, body: ZapBody, domainParam: Option<string>)
    requires NormalizeDomain(domainParam) == NormalizeDomain(body.domain) != ""
    ensures GetZap(DeleteZap(docs, body, Available).docs, domainParam, Available) == EmptyNumero
  {
    DeleteThenGetFor(docs, NormalizeDomain(body.domain));
  }

  /** A delete succeeds even when nothing is filed under the domain, and
      deleting twice is the same as deleting once. */
  lemma DeleteZapIdempotent(docs: map<string, ZapConfig>, domain: string)
    requires domain != ""
    ensures var o := DeleteZapFor(docs, domain, Available);
      && DeleteZapFor(o.docs, domain, Available) == o
      && (domain !in docs ==> o == Outcome(Deleted, docs))
  {
    RemoveSpec(docs, domain);
  }

  /** A failing store makes every route answer 500 with that route's message
      and change nothing, once the domain is non-empty; an empty domain is
      answered before the store is reached. */
  lemma StoreFailure(docs: map<string, ZapConfig>, domain: string, numero: string, now: Time)
    ensures domain != "" ==>
              && GetZapFor(docs, domain, Unavailable) == LookupFailed
              && SaveZapFor(docs, domain, numero, Unavailable, now) == Outcome(SaveFailed, docs)
              && DeleteZapFor(docs, domain, Unavailable) == Outcome(DeleteFailed, docs)
    ensures domain == "" ==>
              && GetZapFor(docs, domain, Unavailable) == EmptyNumero
              && SaveZapFor(docs, domain, numero, Unavailable, now) == Outcome(DomainRequiredResponse, docs)
              && DeleteZapFor(docs, domain, Unavailable) == Outcome(DomainRequiredResponse, docs)
  {
  }

  /** Neither admin route changes the collection or answers anything but 401
      `unauthorized` unless the secret header matches a configured,
      non-empty `ADMIN_SECRET`. */
  lemma AdminRoutesGuarded(docs: map<string, ZapConfig>, secretHeader: Option<string>, adminSecret: Option<string>,
                           body: ZapBody, conn: Connection, now: Time)
    requires secretHeader.None? || secretHeader == Some("") || secretHeader != adminSecret
    ensures SaveZapRoute(docs, secretHeader, adminSecret, body, conn, now) == Outcome(UnauthorizedResponse, docs)
    ensures DeleteZapRoute(docs, secretHeader, adminSecret, body, conn) == Outcome(UnauthorizedResponse, docs)
  {
  }

  /** A save or a delete keeps a valid collection valid, whatever the
      domain, the number and the store's state. */
  lemma StoresKeepValid(docs: map<string, ZapConfig>, domain: string, numero: string, conn: Connection, now: Time)
    requires TableValid(docs)
    ensures TableValid(SaveZapFor(docs, domain, numero, conn, now).docs)
    ensures TableValid(DeleteZapFor(docs, domain, conn).docs)
  {
    if domain != "" {
      UpsertSpec(docs, domain, numero, now);
    }
    RemoveSpec(docs, domain);
  }

  /** Both admin routes keep the collection valid, whoever calls them. */
  lemma AdminRoutesKeepValid(docs: map<string, ZapConfig>, secretHeader: Option<string>, adminSecret: Option<string>,
                             body: ZapBody, conn: Connection, now: Time)
    requires TableValid(docs)
    ensures TableValid(SaveZapRoute(docs, secretHeader, adminSecret, body, conn, now).docs)
    ensures TableValid(DeleteZapRoute(docs, secretHeader, adminSecret, body, conn).docs)
  {
    StoresKeepValid(docs, NormalizeDomain(body.domain), NormalizePhone(body.numero), conn, now);
  }
}
