/**
 * `add_vm` (front_end/route_vm_management.py:46-75): the form's five required
 * fields and three optional ones become the body posted to the API; an optional
 * field left out is sent as the empty string.
 */
module AddVmForm {
  import opened Wrappers

  const RequiredFields: set<string> := {"hostname", "ipaddress", "powerstate", "networkstatus", "vmstatus"}
  const OptionalFields: set<string> := {"username", "avdhost", "description"}

  /** The body: `request.form[k]` for a required field, `request.form.get(k, '')` for an optional
      one; None where a required field is missing (the lookup raises). */
  function AddVmBody(form: map<string, string>): (body: Option<map<string, string>>)
    ensures body.None? <==> !(RequiredFields <= form.Keys)
  {
    if !("hostname" in form && "ipaddress" in form && "powerstate" in form && "networkstatus" in form && "vmstatus" in form)
    then None
    else Some(map[
      "hostname" := form["hostname"],
      "ipaddress" := form["ipaddress"],
      "powerstate" := form["powerstate"],
      "networkstatus" := form["networkstatus"],
      "vmstatus" := form["vmstatus"],
      "username" := if "username" in form then form["username"] else "",
      "avdhost" := if "avdhost" in form then form["avdhost"] else "",
      "description" := if "description" in form then form["description"] else ""])
  }

  /** A missing required field shows the form again with nothing sent; a session without a token
      goes to the login page; otherwise the body is posted. */
  datatype AddVmOutcome = FormShownAgain | ToLogin | Posted(body: map<string, string>)

  /** The POST branch of `add_vm`; the body is built before the token is looked at. */
  function AddVm(form: map<string, string>, accessToken: Option<string>): (r: AddVmOutcome)
    ensures r.Posted? <==> RequiredFields <= form.Keys && Truthy(accessToken)
    ensures r.ToLogin? <==> RequiredFields <= form.Keys && !Truthy(accessToken)
  {
    var body := AddVmBody(form);
    if body.None? then FormShownAgain
    else if !Truthy(accessToken) then ToLogin
    else Posted(body.value)
  }

  /** The body has exactly the eight fields: the required ones as typed, the optional ones as typed
      or empty when left out. */
  lemma AddVmBodyFields(form: map<string, string>)
    requires RequiredFields <= form.Keys
    ensures var b := AddVmBody(form).value;
      && b.Keys == RequiredFields + OptionalFields
      && (forall k :: k in RequiredFields ==> b[k] == form[k])
      && (forall k :: k in OptionalFields ==> b[k] == (if k in form then form[k] else ""))
  {
    var b := AddVmBody(form).value;
    assert b.Keys == RequiredFields + OptionalFields;
  }
}
