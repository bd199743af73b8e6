/** The earlier draft of the data layer: the same record validation with
    other wording for the mode messages, and a store whose operations are
    stubs that touch nothing. */
module Entries {
  import opened Records
  import opened Validation
  import Todos

  function ModeRules(mode: Slice): seq<Rule> {
    [Rule(mode.Of?, "mode", "must be provided"),
     Rule(|mode.Elems()| >= 1, "mode", "must contain at least one entries"),
     Rule(|mode.Elems()| <= 5, "mode", "must contain at most 5 entries"),
     Rule(Unique(mode.Elems()), "mode", "must not contain duplicate entries")]
  }

  /** The checks this `ValidateList` makes, in order; the text-field checks
      are word for word those of the Todo version. */
  function ListRules(f: Fields, fm: Formats): seq<Rule> {
    Todos.TextRules(f, fm) + ModeRules(f.mode)
  }

  /** `ValidateList`. */
  method ValidateList(v: Validator, todo: Todo, formats: Formats)
    modifies v
    ensures v.errors == Apply(old(v.errors), ListRules(todo.CallerFields(), formats))
  {
    ghost var f := todo.CallerFields();
    ghost var e0 := v.errors;
    ghost var e := v.errors;

    v.Check(todo.name != [], "name", "must be provided");
    v.Check(|todo.name| <= 200, "name", "must not be more than 200 bytes long");
    ApplyPair(e, Todos.NameRules(f)[0], Todos.NameRules(f)[1]);
    e := v.errors;

    v.Check(todo.level != [], "level", "must be provided");
    v.Check(|todo.level| <= 200, "level", "must not be more than 200 bytes long");
    ApplyPair(e, Todos.LevelRules(f)[0], Todos.LevelRules(f)[1]);
    e := v.errors;

    v.Check(todo.contact != [], "contact", "must be provided");
    v.Check(|todo.contact| <= 200, "contact", "must not be more than 200 bytes long");
    ApplyPair(e, Todos.ContactRules(f)[0], Todos.ContactRules(f)[1]);
    e := v.errors;

    v.Check(todo.phone != [], "phone", "must be provided");
    v.Check(formats.phone(todo.phone), "phone", "must be a valid phone number");
    ApplyPair(e, Todos.PhoneRules(f, formats)[0], Todos.PhoneRules(f, formats)[1]);
    e := v.errors;

    v.Check(todo.email != [], "email", "must be provided");
    v.Check(formats.email(todo.email), "email", "must be a valid email");
    ApplyPair(e, Todos.EmailRules(f, formats)[0], Todos.EmailRules(f, formats)[1]);
    e := v.errors;

    v.Check(todo.website != [], "website", "must be provided");
    v.Check(formats.website(todo.website), "website", "must be a valid url");
    ApplyPair(e, Todos.WebsiteRules(f, formats)[0], Todos.WebsiteRules(f, formats)[1]);
    e := v.errors;

    v.Check(todo.address != [], "address", "must be provided");
    v.Check(|todo.address| <= 500, "address", "must not be more than 500 bytes long");
    ApplyPair(e, Todos.AddressRules(f)[0], Todos.AddressRules(f)[1]);
    Todos.TextRulesInGroups(e0, f, formats);
    e := v.errors;

    v.Check(todo.mode.Of?, "mode", "must be provided");
    v.Check(|todo.mode.Elems()| >= 1, "mode", "must contain at least one entries");
    v.Check(|todo.mode.Elems()| <= 5, "mode", "must contain at most 5 entries");
    v.Check(Unique(todo.mode.Elems()), "mode", "must not contain duplicate entries");
    ApplyFour(e, ModeRules(f.mode));
    ApplyConcat(e0, Todos.TextRules(f, formats), ModeRules(f.mode));
  }

  /** Both versions of `ValidateList` make the same checks under the same
      keys: they record errors under the same keys, and with the same
      messages except under `mode`. */
  lemma SameChecksAsTodos(errors: map<string, string>, f: Fields, fm: Formats)
    ensures FailedKeys(ListRules(f, fm)) == FailedKeys(Todos.ListRules(f, fm))
    ensures Apply(errors, ListRules(f, fm)).Keys == Apply(errors, Todos.ListRules(f, fm)).Keys
    ensures forall k :: k in Apply(errors, ListRules(f, fm)) && k != "mode" ==>
      Apply(errors, ListRules(f, fm))[k] == Apply(errors, Todos.ListRules(f, fm))[k]
  {
    var text := Todos.TextRules(f, fm);
    var a, b := ListRules(f, fm), Todos.ListRules(f, fm);
    forall i | 0 <= i < |a|
      ensures a[i].ok == b[i].ok && a[i].key == b[i].key
      ensures a[i].key != "mode" ==> a[i].message == b[i].message
    {
      if i < |text| {
        assert a[i] == text[i] == b[i];
      } else {
        assert a[i] == ModeRules(f.mode)[i - |text|];
        assert b[i] == Todos.ModeRules(f.mode)[i - |text|];
      }
    }
    ApplyAgreesOffKey(errors, errors, a, b, "mode");
    ApplyKeys(map[], a);
    ApplyKeys(map[], b);
    ApplyAgreesOffKey(map[], map[], a, b, "mode");
  }

  /** So the draft accepts exactly the records the Todo version accepts. */
  lemma AcceptsLikeTodos(f: Fields, fm: Formats)
    ensures FailedKeys(ListRules(f, fm)) == {} <==> Todos.ListValid(f, fm)
  {
    SameChecksAsTodos(map[], f, fm);
    Todos.ListAccepted(f, fm);
  }

  /** `Insert`: reports success and assigns nothing to `todo`. */
  function Insert(todo: Todo): (err: Option<Error>)
    ensures err == None
  {
    None
  }

  /** `Get`: no record and no error, for every id, even one below 1. */
  function Get(id: int): (r: (Todo?, Option<Error>))
    ensures r.0 == null && r.1 == None
  {
    (null, None)
  }

  /** `Update`: reports success and assigns no new version. */
  function Update(todo: Todo): (err: Option<Error>)
    ensures err == None
  {
    None
  }

  /** `Delete`: reports success for every id, even one below 1. */
  function Delete(id: int): (err: Option<Error>)
    ensures err == None
  {
    None
  }
}
