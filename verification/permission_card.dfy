/** One card of the permission matrix (app/components/permissions/card.tsx): the
    fixed action vocabulary, the `object:action` change keys, the added/removed
    annotation of each action cell, the card highlight, and what the checkboxes
    forward. The card only presents the `changes` it is given. */
module PermissionCard {
  import opened SeqUtil
  import opened JsText

  /** An entry of `ACTIONS`: the action key and its label. */
  datatype VocabularyEntry = VocabularyEntry(key: string, caption: string)

  /** `ACTIONS` (card.tsx:18-23). */
  const Vocabulary: seq<VocabularyEntry> := [
    VocabularyEntry("read", "Read"),
    VocabularyEntry("create", "Create"),
    VocabularyEntry("update", "Update"),
    VocabularyEntry("delete", "Delete")
  ]

  /** The vocabulary's keys in order. */
  function VocabularyKeys(): (keys: seq<string>)
    ensures |keys| == |Vocabulary|
    ensures forall i :: 0 <= i < |keys| ==> keys[i] == Vocabulary[i].key
  {
    seq(|Vocabulary|, i requires 0 <= i < |Vocabulary| => Vocabulary[i].key)
  }

  /** The vocabulary has four distinct non-empty keys, and each label is its key
      with the first letter in upper case (card.tsx:18-23). */
  lemma VocabularyShape()
    ensures VocabularyKeys() == ["read", "create", "update", "delete"]
    ensures NoDup(VocabularyKeys())
    ensures forall i :: 0 <= i < |Vocabulary| ==>
              Vocabulary[i].key != [] && ':' !in Vocabulary[i].key
              && Vocabulary[i].caption == [UpperChar(Vocabulary[i].key[0])] + Vocabulary[i].key[1..]
  {
    assert VocabularyKeys() == ["read", "create", "update", "delete"];
  }

  /** The `changes` prop: the change keys added and removed. */
  datatype Changes = Changes(added: seq<string>, removed: seq<string>)

  /** The key was added or removed. */
  predicate Touched(c: Changes, key: string) {
    key in c.added || key in c.removed
  }

  /** The annotation of an action cell: 'added', 'removed' or `null`. */
  datatype Status = Added | Removed | NoChange

  /** The change key of a cell (card.tsx:43). */
  function ChangeKey(obj: string, action: string): (k: string)
    ensures |k| == |obj| + 1 + |action|
    ensures k[..|obj|] == obj && k[|obj|] == ':' && k[|obj| + 1..] == action
  {
    obj + [':'] + action
  }

  /** For objects without ':' the key determines the object and the action. */
  lemma ChangeKeyInjective(o1: string, a1: string, o2: string, a2: string)
    requires ':' !in o1 && ':' !in o2
    requires ChangeKey(o1, a1) == ChangeKey(o2, a2)
    ensures o1 == o2 && a1 == a2
  {
  }

  /** An object containing ':' can share a change key with another cell. */
  lemma ChangeKeyCollision()
    ensures ChangeKey("a:b", "c") == ChangeKey("a", "b:c")
  {
  }

  /** `getChangeStatus` (card.tsx:41-47): no changes means no status; a key in
      `added` is 'added' even when it is also in `removed`; a key only in
      `removed` is 'removed'. */
  function GetChangeStatus(changes: Option<Changes>, obj: string, action: string): (s: Status)
    ensures changes.None? ==> s == NoChange
    ensures s == Added <==> changes.Some? && ChangeKey(obj, action) in changes.value.added
    ensures s == Removed <==> changes.Some? && ChangeKey(obj, action) !in changes.value.added
                              && ChangeKey(obj, action) in changes.value.removed
  {
    match changes
    case None => NoChange
    case Some(c) =>
      var key := ChangeKey(obj, action);
      if key in c.added then Added
      else if key in c.removed then Removed
      else NoChange
  }

  /** `keys.some((key) => getChangeStatus(key) !== null)`. */
  function AnyChanged(changes: Option<Changes>, obj: string, keys: seq<string>): (b: bool)
    ensures b <==> exists i :: 0 <= i < |keys| && GetChangeStatus(changes, obj, keys[i]) != NoChange
  {
    if keys == [] then false
    else GetChangeStatus(changes, obj, keys[0]) != NoChange || AnyChanged(changes, obj, keys[1..])
  }

  /** `hasObjectChanges` (card.tsx:49): some vocabulary action of the card has a status. */
  function HasObjectChanges(changes: Option<Changes>, obj: string): bool {
    AnyChanged(changes, obj, VocabularyKeys())
  }

  /** The card is highlighted exactly when the key of one of its vocabulary
      actions was added or removed. */
  lemma HighlightIffVocabularyKeyChanged(changes: Option<Changes>, obj: string)
    ensures HasObjectChanges(changes, obj) <==>
              changes.Some? && exists k :: k in VocabularyKeys() && Touched(changes.value, ChangeKey(obj, k))
  {
    var keys := VocabularyKeys();
    if HasObjectChanges(changes, obj) {
      var i :| 0 <= i < |keys| && GetChangeStatus(changes, obj, keys[i]) != NoChange;
      assert keys[i] in keys;
    }
    if changes.Some? && exists k :: k in keys && Touched(changes.value, ChangeKey(obj, k)) {
      var k :| k in keys && Touched(changes.value, ChangeKey(obj, k));
      var i :| 0 <= i < |keys| && keys[i] == k;
      assert GetChangeStatus(changes, obj, keys[i]) != NoChange;
    }
  }

  /** Changes for actions outside the vocabulary never highlight the card. */
  lemma OutsideVocabularyIgnored(obj: string, action: string)
    requires ':' !in obj && action !in VocabularyKeys()
    ensures !HasObjectChanges(Some(Changes([ChangeKey(obj, action)], [ChangeKey(obj, action)])), obj)
  {
    var changes := Some(Changes([ChangeKey(obj, action)], [ChangeKey(obj, action)]));
    HighlightIffVocabularyKeyChanged(changes, obj);
    forall k | k in VocabularyKeys() ensures ChangeKey(obj, k) != ChangeKey(obj, action) {
      if ChangeKey(obj, k) == ChangeKey(obj, action) {
        ChangeKeyInjective(obj, k, obj, action);
      }
    }
  }

  /** What a Radix checkbox reports: checked, unchecked or indeterminate. */
  datatype CheckedState = Checked | Unchecked | Indeterminate

  /** What the card asks its parent to do. */
  datatype CardEvent =
    | PermissionChange(obj: string, action: string, checked: bool)
    | AllPermissionsChange(obj: string, checked: bool)

  /** An action checkbox's change (card.tsx:37-39, 78): anything but `true` is
      forwarded as false. */
  function ActionCheckboxEvent(obj: string, key: string, checked: CheckedState): (e: CardEvent)
    ensures e.PermissionChange? && e.obj == obj && e.action == key
    ensures e.checked <==> checked == Checked
  {
    PermissionChange(obj, key, checked == Checked)
  }

  /** The header checkbox's change (card.tsx:33-35, 55): forwarded unchanged. */
  function HeaderCheckboxEvent(obj: string, checked: bool): (e: CardEvent)
    ensures e.AllPermissionsChange? && e.obj == obj && e.checked == checked
  {
    AllPermissionsChange(obj, checked)
  }

  /** One rendered action row. */
  datatype Cell = Cell(key: string, caption: string, checked: bool, status: Status)

  /** The rows of the card (card.tsx:62-91), one per vocabulary entry, each showing
      `hasPermission(object, key)` and its change status. */
  function Cells(obj: string, hasPermission: (string, string) -> bool, changes: Option<Changes>): (cells: seq<Cell>)
    ensures |cells| == |Vocabulary|
    ensures forall i :: 0 <= i < |cells| ==>
              cells[i] == Cell(Vocabulary[i].key, Vocabulary[i].caption, hasPermission(obj, Vocabulary[i].key),
                               GetChangeStatus(changes, obj, Vocabulary[i].key))
  {
    seq(|Vocabulary|, i requires 0 <= i < |Vocabulary| =>
      Cell(Vocabulary[i].key, Vocabulary[i].caption, hasPermission(obj, Vocabulary[i].key),
           GetChangeStatus(changes, obj, Vocabulary[i].key)))
  }

  /** The card is highlighted exactly when one of its rows shows a mark. */
  lemma HighlightIffSomeCellMarked(obj: string, hasPermission: (string, string) -> bool, changes: Option<Changes>)
    ensures HasObjectChanges(changes, obj) <==>
              exists i :: 0 <= i < |Vocabulary| && Cells(obj, hasPermission, changes)[i].status != NoChange
  {
    var cells := Cells(obj, hasPermission, changes);
    var keys := VocabularyKeys();
    assert forall i :: 0 <= i < |Vocabulary| ==> cells[i].status == GetChangeStatus(changes, obj, keys[i]);
  }
}
