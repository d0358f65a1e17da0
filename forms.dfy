/** Submitted form data and the required-field check every handler starts
    with: `for f in required: if not data.get(f): return ... 400`. */
module Forms {
  import opened Common

  type Form = map<string, string>

  /** `data.get(f)` is truthy: the field is there and is not the empty string. */
  predicate Present(form: Form, field: string) {
    field in form && form[field] != ""
  }

  /** `data[field]`, read after the required-field check has passed. */
  function Get(form: Form, field: string): (v: string)
    ensures Present(form, field) ==> v == form[field] && v != ""
  {
    if field in form then form[field] else ""
  }

  const BuyerFields: seq<string> := ["fullname", "email", "phone", "address", "password"]
  const SellerFields: seq<string> := ["fullname", "email", "phone", "address_location", "payment_details", "password"]
  const ProductFields: seq<string> := ["seller_email", "seller_name", "product_name", "price", "description", "category"]

  /** The first required field, in list order, that is missing or blank. */
  function FirstBlank(form: Form, required: seq<string>): (r: Option<string>)
    ensures r.None? <==> forall i :: 0 <= i < |required| ==> Present(form, required[i])
    ensures r.Some? ==> exists i :: 0 <= i < |required| && required[i] == r.value
                          && !Present(form, r.value)
                          && forall j :: 0 <= j < i ==> Present(form, required[j])
  {
    if |required| == 0 then None
    else if !Present(form, required[0]) then Some(required[0])
    else
      var rest := FirstBlank(form, required[1..]);
      assert rest.Some? ==> exists i :: 1 <= i < |required| && required[i] == rest.value
                             && !Present(form, rest.value)
                             && forall j :: 0 <= j < i ==> Present(form, required[j]) by {
        if rest.Some? {
          var k :| 0 <= k < |required[1..]| && required[1..][k] == rest.value
                   && !Present(form, rest.value)
                   && forall j :: 0 <= j < k ==> Present(form, required[1..][j]);
          assert forall j :: 0 <= j < k + 1 ==> Present(form, required[j]) by {
            forall j | 0 <= j < k + 1 ensures Present(form, required[j]) {
              if j > 0 { assert required[j] == required[1..][j - 1]; }
            }
          }
        }
      }
      rest
  }

  /** Once the required-field check has found nothing missing, every
      required field is read as the non-empty value that was submitted. */
  lemma CheckedFieldRead(form: Form, required: seq<string>, field: string)
    requires FirstBlank(form, required).None? && field in required
    ensures field in form && Get(form, field) == form[field] && form[field] != ""
  {
    var i :| 0 <= i < |required| && required[i] == field;
    assert Present(form, required[i]);
  }

  /** The handlers' loop over the required list, stopping at the first
      missing or blank field. */
  method FirstMissingField(form: Form, required: seq<string>) returns (missing: Option<string>)
    ensures missing == FirstBlank(form, required)
  {
    for i := 0 to |required|
      invariant forall j :: 0 <= j < i ==> Present(form, required[j])
      invariant FirstBlank(form, required) == FirstBlank(form, required[i..])
    {
      if !Present(form, required[i]) {
        return Some(required[i]);
      }
      assert required[i..][1..] == required[i + 1..];
    }
    return None;
  }
}
