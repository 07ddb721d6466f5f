/** The five fields of the contact form and records holding one value per
    field (the form data, the touched flags). */
module FormFields {
  import opened Options

  datatype Field = Name | Phone | Email | ServiceType | Message

  /** The keys of the form-data object in declaration order, which is the
      order `Object.keys` visits them in. */
  const FormKeys: seq<Field> := [Name, Phone, Email, ServiceType, Message]

  /** The property name (and input `name` attribute) of each field. */
  function Key(f: Field): string
  {
    match f
    case Name => "name"
    case Phone => "phone"
    case Email => "email"
    case ServiceType => "serviceType"
    case Message => "message"
  }

  /** The field a key names, if any: the inverse of `Key`. */
  function FieldOf(key: string): (r: Option<Field>)
    ensures forall f :: Key(f) == key <==> r == Some(f)
  {
    if key == "name" then Some(Name)
    else if key == "phone" then Some(Phone)
    else if key == "email" then Some(Email)
    else if key == "serviceType" then Some(ServiceType)
    else if key == "message" then Some(Message)
    else None
  }

  /** Every field is visited exactly once by `Object.keys`. */
  lemma FormKeysEnumerateFields()
    ensures forall f :: f in FormKeys
    ensures forall i, j :: 0 <= i < j < |FormKeys| ==> FormKeys[i] != FormKeys[j]
  {
    forall f: Field
      ensures f in FormKeys
    {
      match f
      case Name => assert FormKeys[0] == f;
      case Phone => assert FormKeys[1] == f;
      case Email => assert FormKeys[2] == f;
      case ServiceType => assert FormKeys[3] == f;
      case Message => assert FormKeys[4] == f;
    }
  }

  /** The position of each field in `FormKeys`. */
  function KeyIndex(f: Field): (r: nat)
    ensures r < |FormKeys| && FormKeys[r] == f
  {
    match f
    case Name => 0
    case Phone => 1
    case Email => 2
    case ServiceType => 3
    case Message => 4
  }

  /** A record with one value per field, like the `formData` and `touched`
      state objects. */
  datatype Fields<T> = Fields(name: T, phone: T, email: T, serviceType: T, message: T)
  {
    function Get(f: Field): T
    {
      match f
      case Name => name
      case Phone => phone
      case Email => email
      case ServiceType => serviceType
      case Message => message
    }

    /** `{ ...this, [Key(f)]: v }` */
    function Set(f: Field, v: T): (r: Fields<T>)
      ensures r.Get(f) == v
      ensures forall g :: g != f ==> r.Get(g) == Get(g)
    {
      match f
      case Name => this.(name := v)
      case Phone => this.(phone := v)
      case Email => this.(email := v)
      case ServiceType => this.(serviceType := v)
      case Message => this.(message := v)
    }
  }

  /** The record holding `v` in every field. */
  function Uniform<T>(v: T): (r: Fields<T>)
    ensures forall f :: r.Get(f) == v
  {
    Fields(v, v, v, v, v)
  }

  /** Two records are equal when they agree on every field. */
  lemma FieldsExtensional<T>(a: Fields<T>, b: Fields<T>)
    requires forall f :: a.Get(f) == b.Get(f)
    ensures a == b
  {
    assert a.Get(Name) == b.Get(Name) && a.Get(Phone) == b.Get(Phone);
    assert a.Get(Email) == b.Get(Email) && a.Get(ServiceType) == b.Get(ServiceType);
    assert a.Get(Message) == b.Get(Message);
  }
}
