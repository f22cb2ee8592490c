/**
 * The user administration page: the permission codes and the presets each
 * role starts from, the per-user permission drafts the checkboxes edit,
 * which users the viewer may see, delete or toggle, the filter panel, and
 * the login suggested from a name.
 */
module Usuarios {
  import opened Base
  import opened Js

  // ---------------------------------------------------------------------
  // Permission codes and presets
  // ---------------------------------------------------------------------

  /** The menu tree, flattened: each section's code followed by its children's. */
  const MenuCodes: seq<string> := [
    "menu:dashboard",
    "menu:consultas", "menu:in100", "menu:argus", "menu:historico", "menu:v8",
    "menu:gestao", "menu:recargas", "menu:controle-planejamento", "menu:relatorios",
    "menu:configuracoes", "menu:usuarios", "menu:equipes"]

  const ButtonCodes: seq<string> := [
    "btn:usuario:editar", "btn:usuario:transferir", "btn:usuario:excluir",
    "btn:usuario:senha", "btn:usuario:status", "btn:usuario:criar"]

  const AllCodes: seq<string> := MenuCodes + ButtonCodes

  const ConsultasMenus: seq<string> := ["menu:consultas", "menu:in100", "menu:argus", "menu:historico", "menu:v8"]
  const GestaoControleMenus: seq<string> := ["menu:gestao", "menu:controle-planejamento"]
  const ConfiguracoesMenus: seq<string> := ["menu:configuracoes", "menu:usuarios", "menu:equipes"]

  /** The permission object over `codes`: each code maps to whether it is enabled. */
  function StateOver(codes: seq<string>, enabled: seq<string>): (r: map<string, bool>)
    ensures r.Keys == set c | c in codes
    ensures forall c :: c in r ==> (r[c] <==> c in enabled)
  {
    if codes == [] then map[]
    else StateOver(codes[..|codes| - 1], enabled)[codes[|codes| - 1] := codes[|codes| - 1] in enabled]
  }

  /** `makeState`: exactly the known permission codes, each enabled when listed. */
  function MakeState(enabled: seq<string>): (r: map<string, bool>)
    ensures r.Keys == set c | c in AllCodes
    ensures forall c :: c in r ==> (r[c] <==> c in enabled)
  {
    StateOver(AllCodes, enabled)
  }

  /** The `reduce` that fills the permission object one code at a time. */
  method MakeStateLoop(enabled: seq<string>) returns (acc: map<string, bool>)
    ensures acc == MakeState(enabled)
  {
    acc := map[];
    var i := 0;
    while i < |AllCodes|
      invariant 0 <= i <= |AllCodes|
      invariant acc == StateOver(AllCodes[..i], enabled)
    {
      assert AllCodes[..i + 1][..i] == AllCodes[..i];
      acc := acc[AllCodes[i] := AllCodes[i] in enabled];
      i := i + 1;
    }
    assert AllCodes[..i] == AllCodes;
  }

  /** The role as the presets read it: trimmed and lower-cased. */
  function RoleName(role: JsValue): string {
    Lower(JsTrim(ToStr(Or(role, JStr("")))))
  }

  /** The menus a role starts with; any unknown role is an operador. */
  function AllowedMenus(roleName: string): seq<string> {
    if roleName == "master" then MenuCodes
    else if roleName == "administrador" then ["menu:dashboard"] + ConsultasMenus + GestaoControleMenus + ConfiguracoesMenus
    else if roleName == "supervisor" then ["menu:dashboard"] + ConsultasMenus + ConfiguracoesMenus
    else ["menu:dashboard"] + ConsultasMenus
  }

  function PresetFor(roleName: string): map<string, bool> {
    MakeState(AllowedMenus(roleName) + ButtonCodes)
  }

  /** `buildPermissionPresetByRole`. */
  function Preset(role: JsValue): map<string, bool> {
    PresetFor(RoleName(role))
  }

  predicate IsKnownRole(roleName: string) {
    roleName == "master" || roleName == "administrador" || roleName == "supervisor"
  }

  /** Every preset covers exactly the known codes and enables every button. */
  lemma PresetCoversCodes(role: JsValue)
    ensures Preset(role).Keys == set c | c in AllCodes
    ensures forall c :: c in ButtonCodes ==> Preset(role)[c]
  {
    PresetForCovers(RoleName(role));
  }

  lemma PresetForCovers(roleName: string)
    ensures PresetFor(roleName).Keys == set c | c in AllCodes
    ensures forall c :: c in ButtonCodes ==> PresetFor(roleName)[c]
  {
    var enabled := AllowedMenus(roleName) + ButtonCodes;
    forall c | c in ButtonCodes ensures PresetFor(roleName)[c] {
      assert c in AllCodes && c in enabled;
    }
  }

  /** A master starts with every menu. */
  lemma MasterHasEveryMenu(role: JsValue)
    requires RoleName(role) == "master"
    ensures forall c :: c in MenuCodes ==> Preset(role)[c]
  {
    forall c | c in MenuCodes ensures Preset(role)[c] {
      assert c in AllCodes && c in AllowedMenus(RoleName(role)) + ButtonCodes;
    }
  }

  /** Menu codes and button codes are apart. */
  lemma MenuNotButton(c: string)
    requires c in MenuCodes
    ensures c !in ButtonCodes
  {
    MenusStartWithM();
    ButtonsStartWithB();
  }

  lemma MenusStartWithM()
    ensures forall c :: c in MenuCodes ==> |c| > 0 && c[0] == 'm'
  {
  }

  lemma ButtonsStartWithB()
    ensures forall c :: c in ButtonCodes ==> |c| > 0 && c[0] == 'b'
  {
  }

  /**
   * Any role other than master, administrador or supervisor starts with
   * exactly the dashboard and the consultas menus.
   */
  lemma OperadorMenus(role: JsValue)
    requires !IsKnownRole(RoleName(role))
    ensures forall c :: c in MenuCodes ==> (Preset(role)[c] <==> c == "menu:dashboard" || c in ConsultasMenus)
  {
    OperadorPreset(RoleName(role));
  }

  lemma OperadorPreset(roleName: string)
    requires !IsKnownRole(roleName)
    ensures forall c :: c in MenuCodes ==> (PresetFor(roleName)[c] <==> c == "menu:dashboard" || c in ConsultasMenus)
  {
    var enabled := ["menu:dashboard"] + ConsultasMenus + ButtonCodes;
    assert AllowedMenus(roleName) + ButtonCodes == enabled;
    forall c | c in MenuCodes
      ensures PresetFor(roleName)[c] <==> c == "menu:dashboard" || c in ConsultasMenus
    {
      MenuNotButton(c);
      assert c in AllCodes;
      assert c in enabled <==> c == "menu:dashboard" || c in ConsultasMenus;
    }
  }

  /** Granted by a permission object: present and set. */
  predicate Granted(m: map<string, bool>, c: string) { c in m && m[c] }

  /** Presets grow with the role: operador, supervisor, administrador, master. */
  lemma PresetsNested(other: string, c: string)
    requires !IsKnownRole(other)
    ensures Granted(PresetFor(other), c) ==> Granted(PresetFor("supervisor"), c)
    ensures Granted(PresetFor("supervisor"), c) ==> Granted(PresetFor("administrador"), c)
    ensures Granted(PresetFor("administrador"), c) ==> Granted(PresetFor("master"), c)
  {
  }

  // ---------------------------------------------------------------------
  // What the viewer may do to a user
  // ---------------------------------------------------------------------

  function TextField(v: JsValue, key: string): string {
    ToStr(Or(Get(v, key), JStr("")))
  }

  /** A `Master` role or the `master` team. */
  predicate IsSuperUser(user: JsValue) {
    Get(user, "role") == JStr("Master") || Lower(TextField(user, "equipe_nome")) == "master"
  }

  /** A supervisor or an administrador: acts on its own team only. */
  predicate IsScopedManager(user: JsValue) {
    Get(user, "role") == JStr("Supervisor") || Lower(TextField(user, "role")) == "administrador"
  }

  /** Both have a team and the teams are the same number. */
  predicate SameTeam(user: JsValue, target: JsValue) {
    var te := Get(target, "equipe_id");
    var ue := Get(user, "equipe_id");
    !IsNullish(te) && !IsNullish(ue) && NumberOf(te).Some? && NumberOf(te) == NumberOf(ue)
  }

  predicate IsSelf(user: JsValue, target: JsValue) { Get(target, "id") == Get(user, "id") }

  /** `canChangePasswordFor`. */
  predicate CanChangePassword(user: JsValue, target: JsValue) {
    IsSuperUser(user) || (IsScopedManager(user) && SameTeam(user, target))
  }

  /** `canToggleUser`: as for passwords, but never oneself. */
  function CanToggleUser(user: JsValue, target: JsValue): (r: bool)
    ensures IsSelf(user, target) ==> !r
    ensures r ==> CanChangePassword(user, target)
    ensures !IsSelf(user, target) && IsSuperUser(user) ==> r
  {
    (IsSuperUser(user) || (IsScopedManager(user) && SameTeam(user, target))) && !IsSelf(user, target)
  }

  /** `canDeleteUser`: super users only, and never oneself. */
  function CanDeleteUser(user: JsValue, target: JsValue): (r: bool)
    ensures IsSelf(user, target) ==> !r
    ensures r ==> CanToggleUser(user, target)
    ensures r <==> IsSuperUser(user) && !IsSelf(user, target)
  {
    IsSuperUser(user) && !IsSelf(user, target)
  }

  // ---------------------------------------------------------------------
  // Permission drafts
  // ---------------------------------------------------------------------

  /** Only the user with id 1 may edit the checkboxes. */
  predicate CanEditCheckboxes(user: JsValue) { NumberOf(Get(user, "id")) == Some(1) }

  /** The draft of a user, or the preset of its role when it has none. */
  function Current(drafts: map<int, map<string, bool>>, id: int, role: JsValue): (r: map<string, bool>)
    ensures id in drafts ==> r == drafts[id]
    ensures id !in drafts ==> r == Preset(role)
  {
    if id in drafts then drafts[id] else Preset(role)
  }

  /** `selectedUserPermissions`: a user without a usable id always shows its preset. */
  function SelectedPermissions(drafts: map<int, map<string, bool>>, selected: JsValue): (r: map<string, bool>)
    ensures NumberOrNull(Get(selected, "id")).None? ==> r == Preset(Get(selected, "role"))
  {
    match NumberOrNull(Get(selected, "id"))
    case None => Preset(Get(selected, "role"))
    case Some(id) => Current(drafts, id, Get(selected, "role"))
  }

  /** One code flipped (an absent code counts as off); the others untouched. */
  function Flip(m: map<string, bool>, code: string): (r: map<string, bool>)
    ensures code in r && Granted(r, code) == !Granted(m, code)
    ensures forall c :: c != code ==> (c in r <==> c in m) && (c in m ==> r[c] == m[c])
  {
    m[code := !Granted(m, code)]
  }

  /** The drafts after a checkbox click. */
  function ToggleDrafts(drafts: map<int, map<string, bool>>, user: JsValue, selected: JsValue, code: string)
    : (r: map<int, map<string, bool>>)
    ensures !CanEditCheckboxes(user) || NumberOrNull(Get(selected, "id")).None? ==> r == drafts
    ensures forall id :: id in drafts ==> id in r
    ensures forall id :: id in r && NumberOrNull(Get(selected, "id")) != Some(id) ==> id in drafts && r[id] == drafts[id]
  {
    if !CanEditCheckboxes(user) then drafts
    else match NumberOrNull(Get(selected, "id"))
      case None => drafts
      case Some(id) => drafts[id := Flip(Current(drafts, id, Get(selected, "role")), code)]
  }

  /** A click by the permission editor shows the selected user's permissions with the clicked code flipped. */
  lemma ToggleSelected(drafts: map<int, map<string, bool>>, user: JsValue, selected: JsValue, code: string)
    requires CanEditCheckboxes(user) && NumberOrNull(Get(selected, "id")).Some?
    ensures SelectedPermissions(ToggleDrafts(drafts, user, selected, code), selected) ==
      Flip(SelectedPermissions(drafts, selected), code)
  {
    var id := NumberOrNull(Get(selected, "id")).value;
    var m := Current(drafts, id, Get(selected, "role"));
    var d' := drafts[id := Flip(m, code)];
    assert ToggleDrafts(drafts, user, selected, code) == d';
    assert Current(d', id, Get(selected, "role")) == Flip(m, code);
  }

  /**
   * A click by the permission editor flips exactly the clicked code of the
   * selected user; the user's other codes stay as they were.
   */
  lemma ToggleFlipsOnlyCode(drafts: map<int, map<string, bool>>, user: JsValue, selected: JsValue, code: string)
    requires CanEditCheckboxes(user) && NumberOrNull(Get(selected, "id")).Some?
    ensures Granted(SelectedPermissions(ToggleDrafts(drafts, user, selected, code), selected), code) ==
      !Granted(SelectedPermissions(drafts, selected), code)
    ensures forall c :: c != code ==>
      (c in SelectedPermissions(ToggleDrafts(drafts, user, selected, code), selected) <==> c in SelectedPermissions(drafts, selected))
    ensures forall c :: c != code && c in SelectedPermissions(drafts, selected) ==>
      SelectedPermissions(ToggleDrafts(drafts, user, selected, code), selected)[c] == SelectedPermissions(drafts, selected)[c]
  {
    ToggleSelected(drafts, user, selected, code);
  }

  /** Every user whose id differs from the selected one shows the same permissions after a click. */
  lemma ToggleKeepsOthers(drafts: map<int, map<string, bool>>, user: JsValue, selected: JsValue, code: string, other: JsValue)
    requires NumberOrNull(Get(other, "id")) != NumberOrNull(Get(selected, "id"))
    ensures SelectedPermissions(ToggleDrafts(drafts, user, selected, code), other) == SelectedPermissions(drafts, other)
  {
    var d' := ToggleDrafts(drafts, user, selected, code);
    match NumberOrNull(Get(other, "id"))
    case None =>
    case Some(j) =>
      assert j in d' <==> j in drafts;
      assert j in drafts ==> d'[j] == drafts[j];
  }

  /** Two clicks on a code the user already has leave the permissions shown as they were. */
  lemma ToggleTwiceRestores(drafts: map<int, map<string, bool>>, user: JsValue, selected: JsValue, code: string)
    requires code in SelectedPermissions(drafts, selected)
    ensures SelectedPermissions(ToggleDrafts(ToggleDrafts(drafts, user, selected, code), user, selected, code), selected) ==
      SelectedPermissions(drafts, selected)
  {
    if CanEditCheckboxes(user) && NumberOrNull(Get(selected, "id")).Some? {
      var d1 := ToggleDrafts(drafts, user, selected, code);
      var m := SelectedPermissions(drafts, selected);
      ToggleSelected(drafts, user, selected, code);
      ToggleSelected(d1, user, selected, code);
      FlipTwice(m, code);
    }
  }

  /** Flipping a present code twice gives back the same permission object. */
  lemma FlipTwice(m: map<string, bool>, code: string)
    requires code in m
    ensures Flip(Flip(m, code), code) == m
  {
  }

  /** The page's permission drafts, edited one checkbox at a time. */
  class PermissionDrafts {
    var drafts: map<int, map<string, bool>>

    constructor()
      ensures drafts == map[]
    {
      drafts := map[];
    }

    function Permissions(selected: JsValue): (r: map<string, bool>)
      reads this
      ensures NumberOrNull(Get(selected, "id")).None? ==> r == Preset(Get(selected, "role"))
    {
      SelectedPermissions(drafts, selected)
    }

    /** `handleTogglePermissionCheckbox`. */
    method TogglePermission(user: JsValue, selected: JsValue, code: string)
      modifies this
      ensures drafts == ToggleDrafts(old(drafts), user, selected, code)
      ensures CanEditCheckboxes(user) && NumberOrNull(Get(selected, "id")).Some? ==>
        Granted(Permissions(selected), code) == !Granted(old(Permissions(selected)), code)
    {
      if !CanEditCheckboxes(user) {
        return;
      }
      var id := NumberOrNull(Get(selected, "id"));
      if id.None? {
        return;
      }
      ToggleFlipsOnlyCode(drafts, user, selected, code);
      var current := if id.value in drafts then drafts[id.value] else Preset(Get(selected, "role"));
      drafts := drafts[id.value := current[code := !Granted(current, code)]];
    }
  }

  // ---------------------------------------------------------------------
  // Which users are listed
  // ---------------------------------------------------------------------

  /** Masters, administradores and the master team see everyone. */
  predicate SeesEveryone(user: JsValue) {
    var role := Lower(TextField(user, "role"));
    role == "master" || role == "administrador" || Lower(TextField(user, "equipe_nome")) == "master"
  }

  function InTeamOf(user: JsValue): JsValue -> bool {
    (u: JsValue) => Get(u, "equipe_id") == Get(user, "equipe_id")
  }

  /** `baseUsuarios`: anyone else with a team sees that team only. */
  function BaseUsuarios(usuarios: seq<JsValue>, user: JsValue): (r: seq<JsValue>)
    ensures forall u :: u in r ==> u in usuarios
    ensures !SeesEveryone(user) && !IsNullish(Get(user, "equipe_id")) ==>
      forall i :: 0 <= i < |r| ==> Get(r[i], "equipe_id") == Get(user, "equipe_id")
    ensures SeesEveryone(user) || IsNullish(Get(user, "equipe_id")) ==> r == usuarios
  {
    if SeesEveryone(user) then usuarios
    else if !IsNullish(Get(user, "equipe_id")) then Filter(usuarios, InTeamOf(user))
    else usuarios
  }

  /** The filter panel and the search box, as typed. */
  datatype Filters = Filters(tipo: string, nome: string, equipeId: string, status: string, search: string)

  function LowerField(u: JsValue, key: string): string { Lower(TextField(u, key)) }

  /** A filter step: whether its field is set, and the test it applies then. */
  type Step = (bool, JsValue -> bool)

  /** Passing each active step. */
  predicate PassesAll(steps: seq<Step>, u: JsValue) {
    steps == [] || ((steps[0].0 ==> steps[0].1(u)) && PassesAll(steps[1..], u))
  }

  /** The steps run in turn, each only when its field is set. */
  function Chain(list: seq<JsValue>, steps: seq<Step>): (r: seq<JsValue>)
    ensures forall u :: u in r <==> u in list && PassesAll(steps, u)
    decreases |steps|
  {
    if steps == [] then list
    else Chain(if steps[0].0 then Filter(list, steps[0].1) else list, steps[1..])
  }

  function TipoWanted(f: Filters): string { Lower(JsTrim(f.tipo)) }
  function NomeTerm(f: Filters): string { Lower(JsTrim(f.nome)) }
  function SearchTerm(f: Filters): string { Lower(JsTrim(f.search)) }

  /** The team filter: `Number` of the chosen id; blank, NaN and 0 disable it. */
  function EquipeWanted(f: Filters): Option<int> {
    if f.equipeId == [] then None
    else match NumberText(f.equipeId)
      case Some(n) => if n != 0 then Some(n) else None
      case None => None
  }

  function TipoMatch(f: Filters): JsValue -> bool {
    (u: JsValue) => LowerField(u, "role") == TipoWanted(f)
  }

  function NomeMatch(f: Filters): JsValue -> bool {
    (u: JsValue) => Contains(LowerField(u, "nome"), NomeTerm(f))
  }

  function EquipeMatch(f: Filters): JsValue -> bool {
    (u: JsValue) => EquipeWanted(f).Some? && Get(u, "equipe_id") == JNum(EquipeWanted(f).value)
  }

  function StatusMatch(f: Filters): JsValue -> bool {
    (u: JsValue) => Truthy(Get(u, "ativo")) == (JsTrim(f.status) == "Ativo")
  }

  function SearchMatch(f: Filters): JsValue -> bool {
    (u: JsValue) => Contains(LowerField(u, "nome"), SearchTerm(f)) || Contains(LowerField(u, "role"), SearchTerm(f))
  }

  function Steps(f: Filters): seq<Step> {
    [(JsTrim(f.tipo) != [], TipoMatch(f)), (NomeTerm(f) != [], NomeMatch(f)),
     (EquipeWanted(f).Some?, EquipeMatch(f)), (JsTrim(f.status) != [], StatusMatch(f)),
     (SearchTerm(f) != [], SearchMatch(f))]
  }

  /** `filtered`: role, name, team, status, then the free search. */
  function Filtered(base: seq<JsValue>, f: Filters): seq<JsValue> {
    Chain(base, Steps(f))
  }

  /** Nothing outside the base list is ever listed, and a team-scoped viewer sees only its team. */
  lemma FilteredWithinBase(usuarios: seq<JsValue>, user: JsValue, f: Filters)
    ensures forall u :: u in Filtered(BaseUsuarios(usuarios, user), f) ==> u in usuarios
    ensures !SeesEveryone(user) && !IsNullish(Get(user, "equipe_id")) ==>
      forall u :: u in Filtered(BaseUsuarios(usuarios, user), f) ==> Get(u, "equipe_id") == Get(user, "equipe_id")
  {
  }

  // ---------------------------------------------------------------------
  // Login suggested from a name
  // ---------------------------------------------------------------------

  /** Characters `[\s-]`. */
  predicate IsLoginSep(c: char) { IsJsSpace(c) || c == '-' }

  /** Characters `[\w\s-]`, the ones the first replacement keeps. */
  predicate IsLoginKept(c: char) { IsWordChar(c) || IsLoginSep(c) }

  predicate IsWordOrSpace(c: char) { IsWordChar(c) || c == ' ' }

  predicate NotJsSpace(c: char) { !IsJsSpace(c) }

  /** `replace(/[\s-]+/g, ' ')`: each run of separators becomes one space. */
  function CollapseSeps(s: string): (r: string)
    ensures AllIn(s, IsLoginKept) ==> AllIn(r, IsWordOrSpace)
    decreases |s|
  {
    if s == [] then []
    else if IsLoginSep(s[0]) then " " + CollapseSeps(TrimStart(s[1..], IsLoginSep))
    else [s[0]] + CollapseSeps(s[1..])
  }

  /** `toLoginFromName`. */
  function ToLoginFromName(nome: JsValue): string {
    var kept := Filter(StripAccents(ToStr(Or(nome, JStr("")))), IsLoginKept);
    Filter(Lower(JsTrim(CollapseSeps(kept))), NotJsSpace)
  }

  lemma {:induction false} CollapseKeepsWords(s: string)
    ensures Filter(CollapseSeps(s), IsWordChar) == Filter(s, IsWordChar)
    decreases |s|
  {
    if s != [] {
      if IsLoginSep(s[0]) {
        var t := TrimStart(s[1..], IsLoginSep);
        SepRunKeepsWords(s);
        CollapseKeepsWords(t);
        var rest := CollapseSeps(t);
        assert (" " + rest)[1..] == rest;
      } else {
        var rest := CollapseSeps(s[1..]);
        CollapseKeepsWords(s[1..]);
        assert ([s[0]] + rest)[1..] == rest;
      }
    }
  }

  /** A run of separators holds no word character. */
  lemma SepRunKeepsWords(s: string)
    requires s != [] && IsLoginSep(s[0])
    ensures Filter(s, IsWordChar) == Filter(TrimStart(s[1..], IsLoginSep), IsWordChar)
  {
    var u := s[1..];
    var t := TrimStart(u, IsLoginSep);
    var a := |u| - |t|;
    var pre := u[..a];
    assert u == pre + t;
    assert forall i :: 0 <= i < |pre| ==> IsLoginSep(pre[i]);
    SepsHoldNoWords(pre);
    FilterAppend(pre, t, IsWordChar);
    SepIsNoWord(s[0]);
    assert Filter(s, IsWordChar) == Filter(u, IsWordChar);
  }

  lemma SepIsNoWord(c: char)
    requires IsLoginSep(c)
    ensures !IsWordChar(c)
  {
  }

  lemma SepsHoldNoWords(pre: string)
    requires forall i :: 0 <= i < |pre| ==> IsLoginSep(pre[i])
    ensures Filter(pre, IsWordChar) == []
  {
    forall i | 0 <= i < |pre| ensures !IsWordChar(pre[i]) {
      SepIsNoWord(pre[i]);
    }
    FilterNone(pre, IsWordChar);
  }

  /** Trimming removes only characters `p` rejects, so it keeps what `p` accepts. */
  lemma TrimKeeps(y: string, ws: char -> bool, p: char -> bool)
    requires forall c :: ws(c) ==> !p(c)
    ensures Filter(Trim(y, ws), p) == Filter(y, p)
  {
    var t := Trim(y, ws);
    var a := TrimOffset(y, ws);
    var pre, post := y[..a], y[a + |t|..];
    assert y == pre + t + post by {
      assert y == y[..a] + y[a..a + |t|] + y[a + |t|..];
    }
    RejectsAll(pre, ws, p);
    RejectsAll(post, ws, p);
    FilterBetween(pre, t, post, p);
  }

  /** A text made only of characters in `ws` holds nothing `p` accepts. */
  lemma RejectsAll(s: string, ws: char -> bool, p: char -> bool)
    requires AllIn(s, ws) && forall c :: ws(c) ==> !p(c)
    ensures forall i :: 0 <= i < |s| ==> !p(s[i])
  {
  }

  /** Filtering ignores a prefix and a suffix that hold nothing `p` accepts. */
  lemma FilterBetween(pre: string, t: string, post: string, p: char -> bool)
    requires forall i :: 0 <= i < |pre| ==> !p(pre[i])
    requires forall i :: 0 <= i < |post| ==> !p(post[i])
    ensures Filter(pre + t + post, p) == Filter(t, p)
  {
    FilterNone(pre, p);
    FilterNone(post, p);
    FilterAppend(pre + t, post, p);
    FilterAppend(pre, t, p);
  }

  lemma SpaceIsNoWord()
    ensures forall c :: IsJsSpace(c) ==> !IsWordChar(c)
  {
  }

  lemma TrimKeepsWords(y: string)
    ensures Filter(JsTrim(y), IsWordChar) == Filter(y, IsWordChar)
  {
    SpaceIsNoWord();
    TrimKeeps(y, IsJsSpace, IsWordChar);
  }

  lemma TrimKeepsWordOrSpace(y: string)
    requires AllIn(y, IsWordOrSpace)
    ensures AllIn(JsTrim(y), IsWordOrSpace)
  {
    var a := TrimOffset(y, IsJsSpace);
    assert JsTrim(y) == y[a..a + |JsTrim(y)|];
  }

  lemma {:induction false} LowerDropSpaces(y: string)
    requires AllIn(y, IsWordOrSpace)
    ensures Filter(Lower(y), NotJsSpace) == Lower(Filter(y, IsWordChar))
  {
    if y != [] {
      LowerDropSpaces(y[1..]);
      var ly := Lower(y);
      assert ly[0] == LowerChar(y[0]) && ly[1..] == Lower(y[1..]);
      if IsWordChar(y[0]) {
        LowerAppend([y[0]], Filter(y[1..], IsWordChar));
      }
    }
  }

  /**
   * The suggested login is the name's letters, digits and underscores,
   * accents removed and lower-cased, and nothing else.
   */
  lemma LoginIsLowerWordChars(nome: JsValue)
    ensures ToLoginFromName(nome) == Lower(Filter(StripAccents(ToStr(Or(nome, JStr("")))), IsWordChar))
  {
    var s0 := StripAccents(ToStr(Or(nome, JStr(""))));
    var kept := Filter(s0, IsLoginKept);
    FilterFilter(s0, IsLoginKept, IsWordChar);
    var c := CollapseSeps(kept);
    CollapseKeepsWords(kept);
    TrimKeepsWords(c);
    TrimKeepsWordOrSpace(c);
    LowerDropSpaces(JsTrim(c));
  }

  /** Lower-cased word characters are already a login. */
  lemma LowerWordsFixed(f: string)
    requires AllIn(f, IsWordChar)
    ensures Lower(Filter(StripAccents(Lower(f)), IsWordChar)) == Lower(f)
  {
    var r := Lower(f);
    StripAccentsAscii(r);
    FilterAll(r, IsWordChar);
    LowerIdempotent(f);
  }

  /** A suggested login suggests itself. */
  lemma LoginIdempotent(nome: JsValue)
    ensures ToLoginFromName(JStr(ToLoginFromName(nome))) == ToLoginFromName(nome)
  {
    var f := Filter(StripAccents(ToStr(Or(nome, JStr("")))), IsWordChar);
    var r := ToLoginFromName(nome);
    LoginIsLowerWordChars(nome);
    LoginIsLowerWordChars(JStr(r));
    assert ToStr(Or(JStr(r), JStr(""))) == r;
    LowerWordsFixed(f);
  }
}
