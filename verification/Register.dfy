/** Dynamic client registration (src/cimd_proxy/register.py; RFC 7591). */
module Register {
  import opened Wrappers
  import opened Json
  import opened RedirectUri
  import opened Envelope
  import opened Fetcher

  datatype RegistrationError = InvalidClientMetadata | InvalidRedirectUri | ParserError

  datatype Metadata = Metadata(redirectUris: seq<string>, authMethod: string, clientName: string)

  /** The first refusal, if any: a registration is refused whole on one failing entry. */
  function CheckAll(uris: seq<string>): Result<(), RegistrationError> {
    if uris == [] then Ok(()) else
      match AcceptRegistered(uris[0])
      case Err(Unparseable) => Err(ParserError)
      case Err(_) => Err(InvalidRedirectUri)
      case Ok(_) => CheckAll(uris[1..])
  }

  lemma {:induction false} CheckAllMeans(uris: seq<string>)
    ensures CheckAll(uris).Ok? <==> forall u | u in uris :: Accepted(u)
  {
    hide AcceptRegistered;
    if uris != [] {
      var first, rest := uris[0], uris[1..];
      CheckAllMeans(rest);
      assert CheckAll(uris).Ok? <==> Accepted(first) && CheckAll(rest).Ok?;
      assert first in uris && forall u :: u in uris <==> u == first || u in rest;
    }
  }

  function Validate(payload: Json): Result<Metadata, RegistrationError> {
    if !payload.Obj? then Err(InvalidClientMetadata) else
      var m := ToMap(payload.members);
      if "client_secret" in m then Err(InvalidClientMetadata)
      else if "redirect_uris" !in m || !IsStringList(m["redirect_uris"]) then Err(InvalidRedirectUri)
      else
        var uris := StringItems(m["redirect_uris"]);
        var _ :- CheckAll(uris);
        var auth := if "token_endpoint_auth_method" in m then m["token_endpoint_auth_method"] else Str("none");
        if auth != Str("none") then Err(InvalidClientMetadata) else
          var name := if "client_name" in m then m["client_name"] else Str("");
          if !name.Str? then Err(InvalidClientMetadata) else Ok(Metadata(uris, auth.s, name.s))
  }

  /** What is sealed into the `client_id`. */
  function Seal(m: Metadata, now: int): Envelope {
    Registration(m.redirectUris, m.authMethod, now, m.clientName)
  }

  /** A registration is granted exactly when the body is an object without a secret that lists only
      accepted URIs, at least one, for a public client; it seals that whole list. */
  lemma GrantedExactly(payload: Json, uris: seq<string>, name: string)
    ensures Validate(payload) == Ok(Metadata(uris, "none", name)) <==>
      && payload.Obj? && uris != []
      && var m := ToMap(payload.members);
      && "client_secret" !in m
      && "redirect_uris" in m && m["redirect_uris"] == Arr(Strings(uris))
      && (forall u | u in uris :: u != "" && Accepted(u))
      && ("token_endpoint_auth_method" in m ==> m["token_endpoint_auth_method"] == Str("none"))
      && (if "client_name" in m then m["client_name"] == Str(name) else name == "")
  {
    hide CheckAll, AcceptRegistered;
    if payload.Obj? {
      var m := ToMap(payload.members);
      if "redirect_uris" in m && IsStringList(m["redirect_uris"]) {
        var listed := m["redirect_uris"];
        var items := StringItems(listed);
        CheckAllMeans(items);
        assert listed == Arr(Strings(items)) by {
          assert forall i | 0 <= i < |items| :: listed.items[i] in listed.items;
          assert Strings(items) == listed.items;
        }
        assert Strings(uris) == Strings(items) <==> uris == items by { StringsInjective(uris, items); }
        assert forall i | 0 <= i < |items| :: items[i] == listed.items[i].s && listed.items[i] in listed.items;
      } else if "redirect_uris" in m && m["redirect_uris"] == Arr(Strings(uris)) && uris != [] {
        var x :| x in Strings(uris) && x.s == "";
        var i :| 0 <= i < |uris| && Strings(uris)[i] == x;
        assert uris[i] in uris;
      }
    }
  }

  lemma StringsInjective(a: seq<string>, b: seq<string>)
    ensures Strings(a) == Strings(b) <==> a == b
  {
    if Strings(a) == Strings(b) {
      assert |Strings(a)| == |a| && |Strings(b)| == |b|;
      forall i | 0 <= i < |a| ensures a[i] == b[i] { assert Strings(a)[i] == Str(a[i]); }
    }
  }
}
