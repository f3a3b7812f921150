/** The contact list sent to the device: `{"status": "ok", "data": [...]}`
    with one `{name, phone, chat_id}` per dict-valued child of the stored
    contacts. Unlike the history endpoint there is no exception handler, so a
    truthy answer that is not a dict escapes as an error. */
module Contacts {
  import opened Results
  import opened Json

  /** One element of the `data` list. Values are passed through as stored. */
  datatype Contact = Contact(name: JsonValue, phone: JsonValue, chatId: JsonValue)

  /** The response body. */
  datatype ContactsReply = ContactsReply(status: string, data: seq<Contact>)

  const DefaultName := JStr("Tanpa Nama")
  const DefaultPhone := JStr("-")
  const DefaultChatId := JStr("")

  /** The projection of one stored contact: the three fields the device uses. */
  function ToContact(fields: seq<(string, JsonValue)>): (c: Contact)
    ensures !HasKey(fields, "name") ==> c.name == DefaultName
    ensures forall i :: FirstBinding(fields, "name", i) ==> c.name == fields[i].1
    ensures !HasKey(fields, "phone") ==> c.phone == DefaultPhone
    ensures forall i :: FirstBinding(fields, "phone", i) ==> c.phone == fields[i].1
    ensures !HasKey(fields, "chat_id") ==> c.chatId == DefaultChatId
    ensures forall i :: FirstBinding(fields, "chat_id", i) ==> c.chatId == fields[i].1
  {
    Contact(Get(fields, "name", DefaultName), Get(fields, "phone", DefaultPhone), Get(fields, "chat_id", DefaultChatId))
  }

  /** A stored contact with none of the three fields projects to the all-default contact. */
  lemma ContactDefaults(fields: seq<(string, JsonValue)>)
    requires !HasKey(fields, "name") && !HasKey(fields, "phone") && !HasKey(fields, "chat_id")
    ensures ToContact(fields) == Contact(DefaultName, DefaultPhone, DefaultChatId)
  {
  }

  /** Reference definition: the dict-valued children, in iteration order. */
  function DictChildren(kvs: seq<(string, JsonValue)>): (ds: seq<seq<(string, JsonValue)>>)
    ensures |ds| <= |kvs|
  {
    if |kvs| == 0 then []
    else (if kvs[0].1.JObj? then [kvs[0].1.fields] else []) + DictChildren(kvs[1..])
  }

  /** The loop over `data.items()`: one contact per dict-valued child and
      nothing for any other child, so never more contacts than children. */
  function ProjectChildren(kvs: seq<(string, JsonValue)>): (cs: seq<Contact>)
    ensures |cs| == |DictChildren(kvs)| <= |kvs|
  {
    if |kvs| == 0 then [] else ProjectChild(kvs[0].1) + ProjectChildren(kvs[1..])
  }

  /** What one child contributes: its projection if it is a dict, else nothing. */
  function ProjectChild(v: JsonValue): seq<Contact> {
    if v.JObj? then [ToContact(v.fields)] else []
  }

  /** Order is preserved: the `k`-th contact is the projection of the `k`-th dict-valued child. */
  lemma {:induction false} ProjectInOrder(kvs: seq<(string, JsonValue)>, k: nat)
    requires k < |DictChildren(kvs)|
    ensures ProjectChildren(kvs)[k] == ToContact(DictChildren(kvs)[k])
    decreases |kvs|
  {
    var ds := DictChildren(kvs[1..]);
    match kvs[0].1
    case JObj(fields) =>
      assert DictChildren(kvs) == [fields] + ds;
      if k > 0 {
        ProjectInOrder(kvs[1..], k - 1);
      }
    case _ =>
      assert DictChildren(kvs) == ds;
      ProjectInOrder(kvs[1..], k);
  }

  /** `get_contacts_json` with the store read as input. A falsy answer gives an
      empty list; a dict gives its projection; anything else truthy has no
      `items` and raises. Whenever it answers, the status is "ok" and there
      are no more contacts than stored children. */
  function ContactsJson(data: JsonValue): (r: Result<ContactsReply>)
    ensures r.Success? <==> !Truthy(data) || data.JObj?
    ensures r.Success? ==> r.value.status == "ok"
    ensures r.Success? && !data.JObj? ==> r.value.data == []
    ensures r.Success? && data.JObj? ==> r.value.data == ProjectChildren(data.fields)
    ensures r.Success? && data.JObj? ==> |r.value.data| <= |data.fields|
  {
    if !Truthy(data) then Success(ContactsReply("ok", []))
    else
      match data
      case JObj(kvs) => Success(ContactsReply("ok", ProjectChildren(kvs)))
      case _ => Failure(MissingAttribute("items"))
  }

  /** Projecting two runs of children is projecting each and concatenating. */
  lemma {:induction false} ProjectAppend(k1: seq<(string, JsonValue)>, k2: seq<(string, JsonValue)>)
    ensures ProjectChildren(k1 + k2) == ProjectChildren(k1) + ProjectChildren(k2)
    decreases |k1|
  {
    if |k1| == 0 {
      assert k1 + k2 == k2;
    } else {
      assert (k1 + k2)[0] == k1[0];
      assert (k1 + k2)[1..] == k1[1..] + k2;
      ProjectAppend(k1[1..], k2);
      var a, b, c := ProjectChild(k1[0].1), ProjectChildren(k1[1..]), ProjectChildren(k2);
      assert a + (b + c) == (a + b) + c;
    }
  }

  /** A child that is not a dict (a string, a number, `None`, a list) is skipped wherever it sits. */
  lemma NonDictChildDropped(k1: seq<(string, JsonValue)>, key: string, v: JsonValue, k2: seq<(string, JsonValue)>)
    requires !v.JObj?
    ensures ProjectChildren(k1 + [(key, v)] + k2) == ProjectChildren(k1 + k2)
  {
    ProjectAppend(k1 + [(key, v)], k2);
    ProjectAppend(k1, [(key, v)]);
    ProjectAppend(k1, k2);
    assert [(key, v)][1..] == [];
    assert ProjectChildren(k1) + [] == ProjectChildren(k1);
  }

  /** An empty dict child is kept (it is a dict, falsy or not) and gets all three defaults. */
  lemma EmptyDictChildKept(key: string)
    ensures ProjectChildren([(key, JObj([]))]) == [Contact(DefaultName, DefaultPhone, DefaultChatId)]
  {
    assert [(key, JObj([]))][1..] == [];
  }
}
