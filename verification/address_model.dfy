/** The saved-address document: its fields, defaults and schema validation. */
module AddressModel {
  import opened Base

  /** A saved delivery address; "" stands for an absent phone. The schema has no email field,
      and `labelText` is the `label` field (a reserved word in Dafny). */
  datatype Address = Address(
    id: AddressId,
    userId: UserId,
    labelText: string,
    name: string,
    phone: string,
    address: string,
    city: string,
    pincode: string,
    isDefault: bool,
    createdAt: Time)

  /** The label a new address gets when none is supplied. */
  const DefaultLabel: string := "Home"

  /** The fields handed to `new Address({...})`; label and isDefault may be left out. */
  datatype AddressFields = AddressFields(
    name: string, phone: string, address: string, city: string, pincode: string,
    labelText: Option<string>, isDefault: Option<bool>)

  /** The schema's required fields; the phone is optional. */
  predicate Complete(name: string, address: string, city: string, pincode: string) {
    Truthy(name) && Truthy(address) && Truthy(city) && Truthy(pincode)
  }

  /** `new Address({...}).save()`: validation, the `Home` and `false` defaults, the creation stamp. */
  function NewAddress(id: AddressId, user: UserId, f: AddressFields, now: Time): (r: Result<Address>)
    ensures r.Ok? <==> Complete(f.name, f.address, f.city, f.pincode)
    ensures r.Err? ==> r.error == ValidationFailed
    ensures r.Ok? ==> r.value.id == id && r.value.userId == user && r.value.createdAt == now
    ensures r.Ok? ==> r.value.labelText == (if f.labelText.Some? then f.labelText.value else DefaultLabel)
    ensures r.Ok? ==> (r.value.isDefault <==> f.isDefault == Some(true))
    ensures r.Ok? ==> r.value.name == f.name && r.value.phone == f.phone && r.value.address == f.address
    ensures r.Ok? ==> r.value.city == f.city && r.value.pincode == f.pincode
  {
    if !Complete(f.name, f.address, f.city, f.pincode) then Err(ValidationFailed)
    else
      Ok(Address(id, user,
                 if f.labelText.Some? then f.labelText.value else DefaultLabel,
                 f.name, f.phone, f.address, f.city, f.pincode,
                 if f.isDefault.Some? then f.isDefault.value else false,
                 now))
  }
}
