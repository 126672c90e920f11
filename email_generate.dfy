/**
 * The quote-request mail route (src/app/api/email/generate/route.ts): check
 * the request, look up the category, its project, the supplier and the
 * category's specification, assemble the request for the mail writer, and
 * return its subject and body with the supplier as recipient.
 */
module EmailGenerate {

  import opened Wrappers
  import opened Js
  import opened Http

  const ExcerptLimit: nat := 2000
  const ExcerptMarker: string := "\n\n[...]"
  const GenerateFailed: string := "Kunde inte generera mail. Försök igen."

  /** The specification excerpt: the first 2000 characters, marked when the text was cut. */
  function Excerpt(text: string): (r: string)
    ensures |text| <= ExcerptLimit ==> r == text
    ensures |text| > ExcerptLimit ==> r == text[..ExcerptLimit] + ExcerptMarker
  {
    var head := if |text| <= ExcerptLimit then text else text[..ExcerptLimit];
    if |text| > ExcerptLimit then head + ExcerptMarker else head
  }

  /** An excerpt is never longer than the limit plus the marker, and it is cut exactly when the text is over the limit. */
  lemma ExcerptBounds(text: string)
    ensures |Excerpt(text)| <= ExcerptLimit + |ExcerptMarker|
    ensures |Excerpt(text)| > ExcerptLimit <==> |text| > ExcerptLimit
  {
    if |text| > ExcerptLimit {
      assert |Excerpt(text)| == ExcerptLimit + 7;
    }
  }

  /** The excerpt always begins with the text, up to the limit. */
  lemma ExcerptKeepsPrefix(text: string)
    ensures var n := if |text| <= ExcerptLimit then |text| else ExcerptLimit;
      |Excerpt(text)| >= n && Excerpt(text)[..n] == text[..n]
  {
  }

  /** What the mail writer receives. */
  datatype MailRequest = MailRequest(
    projectName: Value,
    projectAddress: Value,
    clientName: Value,
    categoryName: Value,
    scopeDescription: Value,
    specificationExcerpt: Option<string>,
    supplierName: Value,
    contactPerson: Value,
    deadline: Value)

  datatype Recipient = Recipient(email: Value, name: Value, company: Value)

  datatype Mail = Mail(subject: Value, body: Value, recipient: Recipient)

  /**
   * The category's project: the joined one, or else the one fetched by
   * `project_id` when that is set. `fetched` is that second lookup's row,
   * `null` when it finds none.
   */
  function ProjectOf(category: Row, fetched: Value): (p: Value)
    ensures Truthy(Col(category, "project")) ==> p == Col(category, "project")
    ensures !Truthy(Col(category, "project")) && Truthy(Col(category, "project_id")) ==> p == fetched
    ensures !Truthy(Col(category, "project")) && !Truthy(Col(category, "project_id")) ==> p == Col(category, "project")
  {
    var joined := Col(category, "project");
    if !Truthy(joined) && Truthy(Col(category, "project_id")) then fetched else joined
  }

  /**
   * The excerpt, if any: only for a category with a source specification
   * whose text is non-empty. A truthy text that is not a string makes
   * `substring` throw.
   */
  function SpecificationExcerpt(category: Row, specification: Option<Row>): (r: Result<Option<string>, Thrown>)
    ensures !Truthy(Col(category, "source_specification_id")) ==> r == Success(None)
    ensures specification.None? || !Truthy(Col(specification.value, "extracted_text")) ==> r == Success(None)
    ensures r.Success? && r.value.Some? ==>
      && Truthy(Col(category, "source_specification_id")) && specification.Some?
      && var text := Col(specification.value, "extracted_text");
      text.Str? && text.s != "" && r.value.value == Excerpt(text.s)
    ensures r.Failure? <==>
      Truthy(Col(category, "source_specification_id")) && specification.Some?
      && Truthy(Col(specification.value, "extracted_text")) && !Col(specification.value, "extracted_text").Str?
  {
    if !Truthy(Col(category, "source_specification_id")) || specification.None? then Success(None)
    else
      var text := Col(specification.value, "extracted_text");
      if !Truthy(text) then Success(None)
      else if text.Str? then Success(Some(Excerpt(text.s)))
      else Failure(ErrorInstance("spec.extracted_text.substring is not a function"))
  }

  /** The request for the mail writer, with its fallbacks. */
  function Request(project: Value, category: Row, supplier: Row, excerpt: Option<string>, deadline: Value): (q: MailRequest)
    ensures q.projectName == Or(Get(project, "name"), Str("Okänt projekt"))
    ensures q.scopeDescription == Or(Or(Col(category, "scope_description"), Col(category, "description")), Col(category, "name"))
    ensures q.supplierName == Col(supplier, "name") && q.contactPerson == Col(supplier, "contact_person")
    ensures q.specificationExcerpt == excerpt && q.deadline == deadline
  {
    MailRequest(
      Or(Get(project, "name"), Str("Okänt projekt")),
      Get(project, "address"),
      Get(project, "client"),
      Col(category, "name"),
      Or(Or(Col(category, "scope_description"), Col(category, "description")), Col(category, "name")),
      excerpt,
      Col(supplier, "name"),
      Col(supplier, "contact_person"),
      deadline)
  }

  /** The scope falls back from the scope description to the description to the name, each used when truthy. */
  lemma ScopeFallback(category: Row, project: Value, supplier: Row, excerpt: Option<string>, deadline: Value)
    ensures var q := Request(project, category, supplier, excerpt, deadline);
      (Truthy(Col(category, "scope_description")) ==> q.scopeDescription == Col(category, "scope_description"))
      && (!Truthy(Col(category, "scope_description")) && Truthy(Col(category, "description")) ==>
            q.scopeDescription == Col(category, "description"))
      && (!Truthy(Col(category, "scope_description")) && !Truthy(Col(category, "description")) ==>
            q.scopeDescription == Col(category, "name"))
  {
    var scope := Col(category, "scope_description");
    var description := Col(category, "description");
    var q := Request(project, category, supplier, excerpt, deadline);
    assert q.scopeDescription == Or(Or(scope, description), Col(category, "name"));
    if Truthy(scope) {
      assert Or(scope, description) == scope;
    } else if Truthy(description) {
      assert Or(scope, description) == description;
    }
  }

  /** Without a project the name is 'Okänt projekt' and the address and client are left out. */
  lemma ProjectFallback(category: Row, project: Value, supplier: Row, excerpt: Option<string>, deadline: Value)
    requires IsNullish(project)
    ensures var q := Request(project, category, supplier, excerpt, deadline);
      q.projectName == Str("Okänt projekt") && q.projectAddress == Undefined && q.clientName == Undefined
  {
    assert Get(project, "name") == Undefined;
  }

  /** The fields of the mail body that must be present. */
  predicate RequestComplete(body: Value) {
    Truthy(Get(body, "categoryId")) && Truthy(Get(body, "supplierId")) && Truthy(Get(body, "deadline"))
  }

  /**
   * POST: 401 without the cookie; 500 for an unreadable body; 400 unless
   * category, supplier and deadline are all given; 404 for an unknown
   * category or supplier; 500 when writing fails; otherwise the mail, addressed
   * to the supplier's contact. The lookups are parameters: `category`,
   * `supplier` and `specification` are `None` when no row is found,
   * `fetchedProject` is the separate project lookup's row, and `write` is the
   * mail writer.
   */
  function Post(
    authed: bool,
    body: Option<Value>,
    category: Option<Row>,
    fetchedProject: Value,
    supplier: Option<Row>,
    specification: Option<Row>,
    write: MailRequest -> Result<Value, Thrown>): (resp: Response<Mail>)
    ensures !authed ==> resp == Error(401, "Ej inloggad")
    ensures authed && (body.None? || IsNullish(body.value)) ==> resp == Error(500, GenerateFailed)
    ensures authed && body.Some? && !IsNullish(body.value) && !RequestComplete(body.value) ==>
      resp == Error(400, "categoryId, supplierId och deadline krävs")
    ensures authed && body.Some? && !IsNullish(body.value) && RequestComplete(body.value) ==>
      (category.None? ==> resp == Error(404, "Kategorin hittades inte"))
      && (category.Some? && supplier.None? ==> resp == Error(404, "Leverantören hittades inte"))
    ensures authed && body.Some? && !IsNullish(body.value) && RequestComplete(body.value) && category.Some? && supplier.Some? ==>
      var excerpt := SpecificationExcerpt(category.value, specification);
      (excerpt.Failure? ==> resp == Error(500, GenerateFailed))
      && (excerpt.Success? ==>
            var mail := write(Request(ProjectOf(category.value, fetchedProject), category.value, supplier.value,
                                      excerpt.value, Get(body.value, "deadline")));
            (mail.Failure? || IsNullish(mail.value) ==> resp == Error(500, GenerateFailed))
            && (mail.Success? && !IsNullish(mail.value) ==>
                  resp == Ok(Mail(Get(mail.value, "subject"), Get(mail.value, "body"),
                                  Recipient(Col(supplier.value, "contact_email"), Col(supplier.value, "contact_person"), Col(supplier.value, "name"))))))
    ensures resp.Ok? ==>
      && authed && body.Some? && RequestComplete(body.value) && category.Some? && supplier.Some?
      && var excerpt := SpecificationExcerpt(category.value, specification);
      && excerpt.Success?
      && var mail := write(Request(ProjectOf(category.value, fetchedProject), category.value, supplier.value,
                                   excerpt.value, Get(body.value, "deadline")));
      && mail.Success? && !IsNullish(mail.value)
      && resp.body.subject == Get(mail.value, "subject") && resp.body.body == Get(mail.value, "body")
      && resp.body.recipient == Recipient(Col(supplier.value, "contact_email"), Col(supplier.value, "contact_person"), Col(supplier.value, "name"))
  {
    if !authed then Error(401, "Ej inloggad")
    else if body.None? || IsNullish(body.value) then Error(500, GenerateFailed)
    else if !RequestComplete(body.value) then Error(400, "categoryId, supplierId och deadline krävs")
    else if category.None? then Error(404, "Kategorin hittades inte")
    else
      var project := ProjectOf(category.value, fetchedProject);
      if supplier.None? then Error(404, "Leverantören hittades inte")
      else
        match SpecificationExcerpt(category.value, specification)
        case Failure(_) => Error(500, GenerateFailed)
        case Success(excerpt) =>
          match write(Request(project, category.value, supplier.value, excerpt, Get(body.value, "deadline")))
          case Failure(_) => Error(500, GenerateFailed)
          case Success(mail) =>
            if IsNullish(mail) then Error(500, GenerateFailed)
            else
              var s := supplier.value;
              Ok(Mail(Get(mail, "subject"), Get(mail, "body"),
                      Recipient(Col(s, "contact_email"), Col(s, "contact_person"), Col(s, "name"))))
  }

  /** Every failure after the request check is a 404 for a missing row or the generic 500. */
  lemma FailuresAfterCheck(
    body: Value, category: Option<Row>, fetchedProject: Value, supplier: Option<Row>,
    specification: Option<Row>, write: MailRequest -> Result<Value, Thrown>)
    requires !IsNullish(body) && RequestComplete(body)
    ensures var resp := Post(true, Some(body), category, fetchedProject, supplier, specification, write);
      resp.Error? ==>
        || (resp == Error(404, "Kategorin hittades inte") && category.None?)
        || (resp == Error(404, "Leverantören hittades inte") && category.Some? && supplier.None?)
        || (resp == Error(500, GenerateFailed) && category.Some? && supplier.Some?)
  {
  }
}
