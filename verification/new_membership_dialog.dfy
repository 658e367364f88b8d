/** The dialog that adds a user or binds a service account to a role
    (app/components/memberhips/new-membership-dialog.tsx): the account options,
    the chosen option, the loading flags, and the create request it sends. */
module NewMembershipDialog {
  import opened SeqUtil
  import opened JsText

  /** A user or service account; the name parts and the email may be missing. */
  datatype Account = Account(id: string, firstName: Option<string>, lastName: Option<string>, email: Option<string>)

  /** Which kind of account the dialog lists. */
  datatype AccountType = User | ServiceAccount

  /** `${account.first_name || ''} ${account.last_name || ''}`.trim()
      (new-membership-dialog.tsx:102): the name parts joined by a space with the
      outer whitespace cut; two clean parts give "first last", or the one that
      is there. */
  function FullName(a: Account): (r: string)
    ensures TrimmedFrom(r, a.firstName.GetOr("") + " " + a.lastName.GetOr("")) && NoOuterWhitespace(r)
    ensures r == [] <==> IsBlank(a.firstName.GetOr("") + " " + a.lastName.GetOr(""))
    ensures var f, l := a.firstName.GetOr(""), a.lastName.GetOr("");
            NoOuterWhitespace(f) && NoOuterWhitespace(l) ==>
              r == if f == [] then l else if l == [] then f else f + " " + l
  {
    var f, l := a.firstName.GetOr(""), a.lastName.GetOr("");
    assert NoOuterWhitespace(f) && NoOuterWhitespace(l) ==>
             Trim(f + " " + l) == if f == [] then l else if l == [] then f else f + " " + l
    by {
      if NoOuterWhitespace(f) && NoOuterWhitespace(l) {
        TrimJoin(f, l);
      }
    }
    Trim(f + " " + l)
  }

  /** `${fullName} ${account.email || ''}`.trim() (new-membership-dialog.tsx:103):
      the full name and the email joined by a space with the outer whitespace
      cut; with a clean email, "name email", or the one that is there. */
  function SearchText(a: Account): (r: string)
    ensures TrimmedFrom(r, FullName(a) + " " + a.email.GetOr("")) && NoOuterWhitespace(r)
    ensures r == [] <==> IsBlank(FullName(a) + " " + a.email.GetOr(""))
    ensures var n, e := FullName(a), a.email.GetOr("");
            NoOuterWhitespace(e) ==> r == if n == [] then e else if e == [] then n else n + " " + e
  {
    var n, e := FullName(a), a.email.GetOr("");
    assert NoOuterWhitespace(e) ==> Trim(n + " " + e) == if n == [] then e else if e == [] then n else n + " " + e
    by {
      if NoOuterWhitespace(e) {
        TrimJoin(n, e);
      }
    }
    Trim(n + " " + e)
  }

  /** One entry of the account list. The label is missing when the account has
      neither a name nor an email. */
  datatype AccountOption = AccountOption(id: string, value: string, caption: Option<string>, searchValue: string, data: Account)

  /** `fullName || account.email` (new-membership-dialog.tsx:108). */
  function Caption(a: Account): (r: Option<string>)
    ensures FullName(a) != [] ==> r == Some(FullName(a))
    ensures FullName(a) == [] ==> r == a.email
  {
    if FullName(a) != [] then Some(FullName(a)) else a.email
  }

  /** An account without name parts is labelled by its email. */
  lemma NamelessAccountShowsEmail(a: Account)
    requires a.firstName.GetOr("") == [] && a.lastName.GetOr("") == []
    ensures FullName(a) == []
    ensures Caption(a) == a.email
  {
    assert a.firstName.GetOr("") + " " + a.lastName.GetOr("") == " ";
    assert IsBlank(" ");
  }

  /** `accountOptions` (new-membership-dialog.tsx:99-114): one option per account,
      in account order, whose id and value are the account id. */
  function AccountOptions(accounts: seq<Account>): (r: seq<AccountOption>)
    ensures |r| == |accounts|
    ensures forall i :: 0 <= i < |r| ==>
              r[i].id == accounts[i].id && r[i].value == accounts[i].id && r[i].data == accounts[i]
              && r[i].caption == Caption(accounts[i]) && r[i].searchValue == SearchText(accounts[i])
  {
    seq(|accounts|, i requires 0 <= i < |accounts| =>
      AccountOption(accounts[i].id, accounts[i].id, Caption(accounts[i]), SearchText(accounts[i]), accounts[i]))
  }

  /** `selectedAccounts` (new-membership-dialog.tsx:94-97): the users in user
      mode, the service accounts otherwise, none when not loaded. */
  function SelectedAccounts(mode: AccountType, users: Option<seq<Account>>, serviceAccounts: Option<seq<Account>>): (r: seq<Account>)
    ensures mode == User ==> r == users.GetOr([])
    ensures mode == ServiceAccount ==> r == serviceAccounts.GetOr([])
  {
    if mode == User then users.GetOr([]) else serviceAccounts.GetOr([])
  }

  /** `selectedOption` (new-membership-dialog.tsx:116-119): the first option whose
      value is the chosen id, none when there is none. */
  function SelectedOption(options: seq<AccountOption>, selectedId: string): (r: Option<AccountOption>)
    ensures r.None? <==> forall k :: 0 <= k < |options| ==> options[k].value != selectedId
    ensures r.Some? ==> exists k :: 0 <= k < |options| && options[k] == r.value && r.value.value == selectedId
                                   && forall l :: 0 <= l < k ==> options[l].value != selectedId
  {
    if options == [] then None
    else if options[0].value == selectedId then Some(options[0])
    else
      var r := SelectedOption(options[1..], selectedId);
      assert forall k :: 1 <= k < |options| ==> options[k] == options[1..][k - 1];
      r
  }

  /** Choosing an account of the list makes the first account with its id the
      selected option. */
  lemma ChosenAccountIsSelected(accounts: seq<Account>, i: nat)
    requires i < |accounts|
    ensures SelectedOption(AccountOptions(accounts), accounts[i].id).Some?
    ensures exists k :: 0 <= k <= i && SelectedOption(AccountOptions(accounts), accounts[i].id).value.data == accounts[k]
                        && accounts[k].id == accounts[i].id
  {
    var options := AccountOptions(accounts);
    assert options[i].value == accounts[i].id;
    var r := SelectedOption(options, accounts[i].id);
    var k :| 0 <= k < |options| && options[k] == r.value && r.value.value == accounts[i].id
             && forall l :: 0 <= l < k ==> options[l].value != accounts[i].id;
    assert k <= i;
  }

  /** The search term sent with the users query (new-membership-dialog.tsx:71):
      the debounced query in user mode when it is not empty, else none. */
  function UsersQuery(mode: AccountType, debouncedQ: string): (r: Option<string>)
    ensures r.Some? <==> mode == User && debouncedQ != []
    ensures r.Some? ==> r.value == debouncedQ
  {
    if mode == User && debouncedQ != [] then Some(debouncedQ) else None
  }

  /** Which list query runs (new-membership-dialog.tsx:64-73): the service
      accounts in service-account mode, the users in user mode, none while closed. */
  predicate ServiceAccountsEnabled(isOpen: bool, mode: AccountType) { isOpen && mode != User }
  predicate UsersEnabled(isOpen: bool, mode: AccountType) { isOpen && mode == User }

  /** Exactly one list query runs while the dialog is open, none while closed. */
  lemma OneListQuery(isOpen: bool, mode: AccountType)
    ensures isOpen <==> (ServiceAccountsEnabled(isOpen, mode) || UsersEnabled(isOpen, mode))
    ensures !(ServiceAccountsEnabled(isOpen, mode) && UsersEnabled(isOpen, mode))
  {
  }

  /** `isInitialLoading` (new-membership-dialog.tsx:121-122). */
  predicate IsInitialLoading(debouncedQ: string, accounts: seq<Account>, loadingServiceAccounts: bool, loadingUsers: bool) {
    debouncedQ == [] && accounts == [] && (loadingServiceAccounts || loadingUsers)
  }

  /** `isSearchingUsers` (new-membership-dialog.tsx:123). */
  predicate IsSearchingUsers(mode: AccountType, debouncedQ: string, loadingUsers: bool) {
    mode == User && debouncedQ != [] && loadingUsers
  }

  /** The two loading states never show together: one needs an empty debounced
      query, the other a non-empty one. */
  lemma LoadingStatesExclusive(mode: AccountType, debouncedQ: string, accounts: seq<Account>,
                               loadingServiceAccounts: bool, loadingUsers: bool)
    ensures !(IsInitialLoading(debouncedQ, accounts, loadingServiceAccounts, loadingUsers)
              && IsSearchingUsers(mode, debouncedQ, loadingUsers))
  {
  }

  /** The create call: the role, the chosen account and the domain. */
  datatype MembershipRequest = MembershipRequest(roleId: string, userId: string, domain: string)

  /** The dialog's state. */
  class NewMembershipForm {
    var isOpen: bool
    var currentRoleId: string
    var currentAccountType: AccountType
    var selectedId: string
    var domain: string
    var q: string
    var isComboboxOpen: bool

    /** The initial state for the given props (new-membership-dialog.tsx:51-57). */
    constructor (roleId: string, accountType: AccountType)
      ensures !isOpen && currentRoleId == roleId && currentAccountType == accountType
      ensures selectedId == [] && domain == [] && q == [] && !isComboboxOpen
    {
      isOpen, currentRoleId, currentAccountType := false, roleId, accountType;
      selectedId, domain, q, isComboboxOpen := [], [], [], false;
    }

    /** The selection, domain, search text and combobox are cleared. */
    predicate Cleared()
      reads this
    {
      selectedId == [] && domain == [] && q == [] && !isComboboxOpen
    }

    /** `closeDialog` (new-membership-dialog.tsx:125-131): closed and cleared; the
      role and the account type stay. */
    method Close()
      modifies this
      ensures !isOpen && Cleared()
      ensures currentRoleId == old(currentRoleId) && currentAccountType == old(currentAccountType)
    {
      isOpen, selectedId, domain, q, isComboboxOpen := false, [], [], [], false;
    }

    /** `open` (new-membership-dialog.tsx:136-140): the role and the account type
      are set and the dialog opens; nothing else changes. */
    method Open(roleId: string, accountType: AccountType)
      modifies this
      ensures isOpen && currentRoleId == roleId && currentAccountType == accountType
      ensures selectedId == old(selectedId) && domain == old(domain) && q == old(q)
      ensures isComboboxOpen == old(isComboboxOpen)
    {
      currentRoleId, currentAccountType, isOpen := roleId, accountType, true;
    }

    /** Choosing an option (new-membership-dialog.tsx:205-208): its value becomes
      the selection and the combobox closes. */
    method Choose(option: AccountOption)
      modifies this
      ensures selectedId == option.value && !isComboboxOpen
      ensures isOpen == old(isOpen) && currentRoleId == old(currentRoleId)
      ensures currentAccountType == old(currentAccountType) && domain == old(domain) && q == old(q)
    {
      selectedId, isComboboxOpen := option.value, false;
    }

    /** The Save button is enabled with a selection while not creating
      (new-membership-dialog.tsx:245). */
    predicate SaveEnabled(isCreating: bool)
      reads this
    {
      selectedId != [] && !isCreating
    }

    /** `handleSubmit` (new-membership-dialog.tsx:85-92), with `succeeds` whether
      the create succeeds, whose `onSuccess` closes the dialog (lines 78-82).
      Without a selection nothing is sent. Otherwise the chosen account is sent
      with the typed domain, or '*' when none was typed. */
    method Submit(succeeds: bool) returns (request: Option<MembershipRequest>)
      modifies this
      ensures old(selectedId) == [] ==> request == None && unchanged(this)
      ensures old(selectedId) != [] ==>
                request == Some(MembershipRequest(old(currentRoleId), old(selectedId),
                                                  if old(domain) == [] then "*" else old(domain)))
      ensures old(selectedId) != [] && succeeds ==> !isOpen && Cleared()
      ensures !succeeds ==> unchanged(this)
      ensures currentRoleId == old(currentRoleId) && currentAccountType == old(currentAccountType)
    {
      if selectedId == [] {
        return None;
      }
      request := Some(MembershipRequest(currentRoleId, selectedId, if domain == [] then "*" else domain));
      if succeeds {
        Close();
      }
    }
  }
}
