# Wedding invitation core, modelled in Dafny

This project models the server-side core of a Laravel/Filament application for wedding
invitations. The core covers:

- **Invitation store.** An invitation row and its satellite records: couple, people (bride and
  groom), event section and events, map, RSVP section, gift section and gift accounts, wish
  section and wish samples, guestbook entries, RSVP responses, music, and the asset rows that
  hold uploaded files.
- **Asset reconciler** (the `SyncInvitationAssets` trait). After the admin *create* or *edit*
  page saves, or the guest-facing *wizard* saves, it turns the raw form state into asset rows.
  It also links them into the couple, people, gallery, gift accounts and music.
- **Form fill.** The edit page and the wizard pre-fill the form from the stored invitation.
  Each file-upload slot also has a hydrate hook and an after-upload hook.
- **Invitation model.** The fillable columns, the "created" hook that creates the default
  satellites, and the "saved"/"deleted" hooks that forget the cached payload.
- **Template renderer.**
  - Looks an invitation up by slug and status.
  - Writes the default satellites.
  - Resolves the view and checks which required relations are missing.
  - Builds the DTO and the flat field map.
  - Caches the payload for 10 minutes under `invitation:{id}:payload:v1`.
- **Template-1 view logic.** The hero image and title fallbacks, the gallery and hero slides,
  the bride/groom slides, the wish list and its initials, the event location fallback, and the
  carousel index arithmetic.
- **Public interaction controller.** Together with its form requests, it stores guestbook
  entries and RSVP responses for published invitations.

The database is an immutable `Store`: one `Table<T>` per table, a map from ids to rows plus the
next free id. Every operation is a pure function from a store to a new store, or to a `Result`
whose error is `NotFound` (404), `Invalid` (a 422 validation failure) or `Rejected` (the
database or mass assignment refuses the write). Form state and request input are maps from
keys to a PHP-like `Value` (null, bool, int, string, list, keyed record).

Files:

- Foundations:
  - `wrappers.dfy`: `Option`, `Result` and failures.
  - `php.dfy`: `Value`, truthiness, `trim`.
  - `decimal.dfy`: integer ↔ decimal text.
  - `tables.dfy`: auto-increment tables.
  - `schema.dfy`: rows and the store.
- Write algebra:
  - `store_updates.dfy`: writes and their algebra.
  - `growth.dfy`: the monotone growth of a store, and first-match anchoring.
- Reconciler:
  - `sync_assets.dfy`: the reconciler.
  - `sync_idempotence.dfy`: the reconciler run twice.
- `ordering.dfy`: a stable `sortBy`.
- Models, form and pages:
  - `invitation_model.dfy`: the created hook, relations and the role helpers.
  - `invitation_row.dfy`: mass assignment and the invitation row.
  - `asset_url.dfy`: `Asset::publicUrl`.
  - `upload_slots.dfy`: the form's upload hooks.
  - `form_fill.dfy`: the edit and wizard pre-fill.
  - `edit_page.dfy`, `create_page.dfy` and `wizard.dfy`: the three save paths.
- Renderer:
  - `template_renderer.dfy`, `payload_cache.dfy` and `render_flow.dfy`: the renderer.
  - `template_one.dfy`: the template-1 view logic.
- Public endpoints:
  - `guest_requests.dfy`: the form requests' validation rules.
  - `interaction_controller.dfy`: the public endpoints.

Upload values are read in two places. The form's upload hooks work on the widget's state: a
single non-array value, or an array read from its first value (`reset`), kept only when it is
a non-empty string other than `"0"` (`UploadSlots.StatePath`). The reconciler reads the value
under the form key and uses it as a path when it is a non-empty string other than `"0"`
(`SyncInvitationAssets.UploadedPath`); other values are taken as no path (see "Left out").

## Model

| member | source | states |
|---|---|---|
| SyncInvitationAssets.StripInvitationFormData | app/Filament/Resources/Invitations/Pages/Concerns/SyncInvitationAssets.php:9-31 | the result holds exactly the keys of the input that are not among the fourteen transient form keys, each with its input value |
| SyncInvitationAssets.StripIsIdempotent | app/Filament/Resources/Invitations/Pages/Concerns/SyncInvitationAssets.php:9-31 | stripping twice gives what stripping once gives |
| SyncInvitationAssets.TransientKeysAreFourteen | app/Filament/Resources/Invitations/Pages/Concerns/SyncInvitationAssets.php:11-26 | the stripped key list has fourteen distinct names |
| SyncInvitationAssets.UploadedPath | app/Filament/Resources/Invitations/Pages/Concerns/SyncInvitationAssets.php:53-56 | a path is taken exactly when the value is a PHP-truthy string, and it is that string |
| SyncInvitationAssets.UpsertAsset | app/Filament/Resources/Invitations/Pages/Concerns/SyncInvitationAssets.php:58-61 | updateOrCreate on (invitation, category, kind, disk, path): an existing first match is updated in place (storage and alt text only, no new row); otherwise exactly one new local row is added; every other asset row is unchanged and the returned id is the first match afterwards |
| SyncInvitationAssets.UpsertAssetKeepsUnique | app/Filament/Resources/Invitations/Pages/Concerns/SyncInvitationAssets.php:58-61 | when no two assets share an upsert key before, none do after |
| SyncInvitationAssets.EnsurePerson | app/Filament/Resources/Invitations/Pages/Concerns/SyncInvitationAssets.php:76 | firstOrCreate by role: an existing first match leaves the store as it was; otherwise one new person row with that role is added and no other row changes |
| SyncInvitationAssets.FindGalleryItem | app/Filament/Resources/Invitations/Pages/Concerns/SyncInvitationAssets.php:119-122 | a row id is resolved exactly when it names a gallery item of this invitation |
| SyncInvitationAssets.FindGiftAccount | app/Filament/Resources/Invitations/Pages/Concerns/SyncInvitationAssets.php:148-151 | a row id is resolved exactly when it names a gift account of this invitation |
| SyncInvitationAssets.SyncCoupleImage | app/Filament/Resources/Invitations/Pages/Concerns/SyncInvitationAssets.php:51-66 | no path leaves the store untouched; a path links the couple (created empty if missing) to a local section-image asset with that path and alt "Couple Image", other couple columns kept; only this invitation's assets and couple change |
| SyncInvitationAssets.PersonTextOf | app/Filament/Resources/Invitations/Pages/Concerns/SyncInvitationAssets.php:78-84 | each text column gets what Eloquent writes for the form value: a string as itself, an int as its decimal text, a bool as "1" or "0", and null for a missing key or null |
| SyncInvitationAssets.SyncPerson | app/Filament/Resources/Invitations/Pages/Concerns/SyncInvitationAssets.php:74-99 | the first person of the role (created if missing) gets the five text columns from the form; with no photo path its photo link and the assets are unchanged, with one it is linked to a local asset with alt "Bride Photo"/"Groom Photo"; other people are unchanged |
| SyncInvitationAssets.PlaceGalleryItem | app/Filament/Resources/Invitations/Pages/Concerns/SyncInvitationAssets.php:119-131 | the row id's item, or else a new item, ends with position index + 1 and the asset; a resolved id adds no row, an unresolved one adds exactly one |
| SyncInvitationAssets.LinkGalleryItem | app/Filament/Resources/Invitations/Pages/Concerns/SyncInvitationAssets.php:109-131 | the targeted gallery item belongs to the invitation, sits at index + 1 and links a local gallery-image asset with alt "Gallery n"; other items are unchanged |
| SyncInvitationAssets.SyncGalleryRow | app/Filament/Resources/Invitations/Pages/Concerns/SyncInvitationAssets.php:108-132 | a repeater row without an image path changes nothing |
| SyncInvitationAssets.SyncGallery | app/Filament/Resources/Invitations/Pages/Concerns/SyncInvitationAssets.php:101-133 | only this invitation's assets and gallery change; a gallery item no repeater row names is unchanged; asset keys stay unique; a list state is processed row by row, a keyed state is not covered (see Left out) |
| SyncInvitationAssets.LinkGiftQr | app/Filament/Resources/Invitations/Pages/Concerns/SyncInvitationAssets.php:148-166 | the targeted account, or a new one at index + 1, keeps its other columns and links a local "Gift QR" asset; a resolved id adds no account |
| SyncInvitationAssets.SyncGiftRow | app/Filament/Resources/Invitations/Pages/Concerns/SyncInvitationAssets.php:142-167 | a repeater row without a QR path changes nothing |
| SyncInvitationAssets.SyncGiftAccounts | app/Filament/Resources/Invitations/Pages/Concerns/SyncInvitationAssets.php:135-168 | only this invitation's assets and gift accounts change; an account no repeater row names is unchanged; a list state is processed row by row, a keyed state is not covered (see Left out) |
| SyncInvitationAssets.SyncMusic | app/Filament/Resources/Invitations/Pages/Concerns/SyncInvitationAssets.php:170-200 | no path leaves the store untouched; a path links the music record (created if missing) to a local audio asset with alt "Invitation Music" |
| SyncInvitationAssets.SyncAll | app/Filament/Resources/Invitations/Pages/Concerns/SyncInvitationAssets.php:33-49 | the whole reconciliation writes only assets, couple, people, gallery, gift accounts and music, and only rows of this invitation; asset keys stay unique |
| SyncIdempotence.SyncIsIdempotent | app/Filament/Resources/Invitations/Pages/Concerns/SyncInvitationAssets.php:33-49 | running the reconciler a second time on the same form state leaves the store exactly as after the first run, when every gallery/gift row with a file names an existing row |
| SyncIdempotence.SyncAllStages | app/Filament/Resources/Invitations/Pages/Concerns/SyncInvitationAssets.php:44-48 | the run is couple, bride, groom, gallery, gifts, music in that order |
| SyncIdempotence.StagesGrowToEnd | app/Filament/Resources/Invitations/Pages/Concerns/SyncInvitationAssets.php:44-48 | every intermediate store of a run only grows into the final one: no row disappears and no key column changes |
| Ordering.SortByIsStable | app/Services/TemplateRenderer.php:248-262 | sortBy keeps the input order among elements with equal keys |
| Ordering.SortBySorted | app/Services/TemplateRenderer.php:248-262 | sorting an already sorted list returns it unchanged |
| Ordering.MapSortBy | app/Services/TemplateRenderer.php:248-262 | sorting then mapping equals mapping then sorting on a key the map preserves |
| InvitationModel.EnsureDefaults | app/Services/TemplateRenderer.php:126-138 | afterwards the invitation has every one-to-one satellite and a bride and a groom; existing couple and music rows are kept, missing ones are created empty, new people are fresh rows of this invitation |
| InvitationModel.EnsureDefaultsRoles | app/Services/TemplateRenderer.php:136-137 | a role with no person gets exactly one; a role with persons keeps exactly them |
| InvitationModel.EnsureDefaultsNoop | app/Services/TemplateRenderer.php:126-138 | on an invitation that already has its defaults nothing changes |
| InvitationModel.EnsureDefaultsIdempotent | app/Services/TemplateRenderer.php:126-138 | writing the defaults twice equals writing them once |
| InvitationModel.EnsureDefaultsOwned | app/Services/TemplateRenderer.php:126-138 | every child row still belongs to an existing invitation |
| InvitationModel.CreateInvitation | app/Models/Invitation.php:29-40 | a created invitation gets a fresh id greater than all earlier ones, an empty couple and music record, and exactly one bride and one groom |
| InvitationModel.Load | app/Models/Invitation.php:76-130 | events, gallery, gift accounts and wish samples load as sorted permutations of the invitation's rows; guestbook entries and RSVP responses newest first |
| InvitationModel.LoadLooksUp | app/Models/Invitation.php:61-135 | each one-to-one relation loads the invitation's row or null, people load in key order |
| InvitationModel.FirstWithRole | app/Models/Invitation.php:138-146 | null exactly when no person has the role; otherwise a person with it |
| InvitationModel.RoleHelperFindsFirstPerson | app/Models/Invitation.php:138-146 | the bride()/groom() helper returns the same row firstOrCreate would find |
| InvitationModel.RoleHelperFindsNothing | app/Models/Invitation.php:138-146 | when firstOrCreate would find nothing, the helper returns null |
| InvitationRow.StatusOf | database/migrations/2026_01_11_025122_create_initial_table.php:35 | exactly the three enum words are statuses, each naming its own status |
| InvitationRow.TemplateIdOf | database/migrations/2026_01_11_025122_create_initial_table.php:24-27 | a non-negative int or an all-digit string is a template id; everything else is refused |
| InvitationRow.TemplateIdReadsNumerals | database/migrations/2026_01_11_025122_create_initial_table.php:24-27 | the decimal text of n reads back as template id n |
| InvitationRow.FillInvitation | app/Models/Invitation.php:13-20 | fill succeeds exactly when every fillable key present has a storable value, and then takes those keys and keeps every other column |
| InvitationRow.FillSeesOnlyFillable | app/Models/Invitation.php:13-20 | two payloads that agree on the fillable keys fill alike |
| InvitationRow.FillDropsUserId | app/Models/Invitation.php:13-20 | a user_id key in the payload has no effect on fill |
| InvitationRow.FillIsIdempotent | app/Models/Invitation.php:13-20 | filling the same payload twice equals filling once |
| InvitationRow.NewInvitationRow | database/migrations/2026_01_11_025122_create_initial_table.php:21-37 | creating needs template_id and slug; missing title is null, timezone Asia/Jakarta, locale id_ID, status draft, no owner |
| InvitationRow.UpdateInvitation | database/migrations/2026_01_11_025122_create_initial_table.php:29 | an update succeeds exactly when fill succeeds and the new slug is free among other invitations; only that row changes and slugs stay unique |
| InvitationRow.UpdateIsIdempotent | app/Models/Invitation.php:13-20 | updating twice with the same payload equals updating once |
| InvitationRow.InsertInvitation | database/migrations/2026_01_11_025122_create_initial_table.php:21-37 | an insert succeeds exactly when the row can be built and its slug is unused; the new row gets a fresh largest id and its defaults, others are unchanged, slugs stay unique |
| AssetUrl.PublicUrl | app/Models/Asset.php:40-51 | a URL asset gives its url; a local asset gives the disk URL when disk and path are set, else null; any other storage gives null |
| AssetUrl.PublicUrlSomeIff | app/Models/Asset.php:40-51 | a URL exists exactly for a URL asset with a url or a local asset with disk and path |
| AssetUrl.PublicUrlDependsOnLocation | app/Models/Asset.php:40-51 | the URL depends only on storage, url, disk and path |
| AssetUrl.LocalUploadHasUrl | app/Models/Asset.php:46-48 | every asset the upload hooks create has a public URL on the public disk |
| UploadSlots.StatePath | app/Filament/Resources/Invitations/Schemas/InvitationForm.php:96-99 | a scalar state gives its value and a file list its first entry, kept only when it is a truthy string |
| UploadSlots.GalleryRowAccepted | app/Filament/Resources/Invitations/Schemas/InvitationForm.php:222 | a gallery row without an id is accepted only with a non-blank image state |
| UploadSlots.UploadsWithoutRecordKeepLink | app/Filament/Resources/Invitations/Schemas/InvitationForm.php:223-236 | on a form without a saved record, any sequence of uploads leaves the store unchanged and never sets a link; the gallery link is kept as it was |
| UploadSlots.NewGalleryRowRefusedOnCreate | app/Filament/Resources/Invitations/Schemas/InvitationForm.php:209-236 | as written, a new gallery row on the create page keeps an empty `image_asset_id` whatever is uploaded, so the required hidden field refuses it |
| UploadSlots.FreshRowPassesImageRule | app/Filament/Resources/Invitations/Schemas/InvitationForm.php:209-222 | a new row with an upload passes the image rule alone but not the rules as written while its link is empty |
| UploadSlots.FirstOrCreateAsset | app/Filament/Resources/Invitations/Schemas/InvitationForm.php:106-121 | an existing local asset of this invitation with the path is reused unchanged; otherwise exactly one is created; the id is the first match afterwards |
| UploadSlots.AfterUpload | app/Filament/Resources/Invitations/Schemas/InvitationForm.php:85-124 | a blank state clears the link (kept on the gallery slot), a state with no path or no saved record changes nothing, otherwise the link points at a local asset with the path |
| UploadSlots.AfterUploadIsIdempotent | app/Filament/Resources/Invitations/Schemas/InvitationForm.php:85-124 | running the hook again on its own result changes nothing |
| UploadSlots.Hydrate | app/Filament/Resources/Invitations/Schemas/InvitationForm.php:125-135 | the state changes only to the path of a linked local asset on the public disk |
| UploadSlots.HydrateRoundTrip | app/Filament/Resources/Invitations/Schemas/InvitationForm.php:125-135 | a hydrated slot fed back to the upload hook re-finds the same asset and link without writing |
| UploadSlots.RelationshipData | app/Filament/Resources/Invitations/Schemas/InvitationForm.php:67-68 | the relationship save sees every key but the upload key, unchanged |
| FormFill.LocalPath | app/Filament/Resources/Invitations/Pages/EditInvitation.php:29-31 | a path is filled exactly when the linked asset is stored locally |
| FormFill.FillPerson | app/Filament/Resources/Invitations/Pages/EditInvitation.php:33-49 | the role's five text keys hold the first person's columns (null when there is none) and no key outside the role changes |
| FormFill.GalleryRows | app/Filament/Resources/Invitations/Pages/EditInvitation.php:56-62 | one repeater row per gallery item of the invitation, each naming its item |
| FormFill.GiftRows | app/Filament/Resources/Invitations/Pages/EditInvitation.php:64-73 | one repeater row per gift account of the invitation, each naming its account |
| FormFill.CommonFill | app/Filament/Resources/Invitations/Pages/EditInvitation.php:26-73 | only the filled keys change; repeaters and person text come from the store |
| FormFill.GalleryFillFollowsLoad | app/Filament/Resources/Invitations/Pages/EditInvitation.php:56-62 | the gallery rows are filled in the order the relation loads them |
| FormFill.GiftFillFollowsLoad | app/Filament/Resources/Invitations/Pages/EditInvitation.php:64-73 | the gift rows are filled in the order the relation loads them |
| FormFill.CommonFillResolves | app/Filament/Resources/Invitations/Pages/EditInvitation.php:56-73 | every filled repeater row's id resolves to an existing row of the invitation |
| FormFill.FilledTextRoundTrip | app/Filament/Resources/Invitations/Pages/EditInvitation.php:33-46 | writing the filled text back into the same person changes nothing |
| FormFill.FilledTextWhenMissing | app/Filament/Resources/Invitations/Pages/EditInvitation.php:26-46 | with no person of the role every text key is filled with null |
| FormFill.EditFillCoupleImage | app/Filament/Resources/Invitations/Pages/EditInvitation.php:29-31 | a local couple image puts its path under the top-level couple_image key |
| FormFill.EditFillNoLocalCoupleImage | app/Filament/Resources/Invitations/Pages/EditInvitation.php:29-31 | without a local couple image the key keeps its incoming value |
| FormFill.WizardFillLeavesTopLevelCoupleImage | app/Livewire/InvitationWizard.php:124-127 | the wizard fill leaves the top-level couple_image key as it was |
| FormFill.WizardFillNestsCoupleImage | app/Livewire/InvitationWizard.php:124-127 | the wizard fill puts the local path under couple.couple_image |
| FormFill.WizardSaveSkipsCoupleImage | app/Filament/Resources/Invitations/Pages/Concerns/SyncInvitationAssets.php:51-56 | the reconciler does nothing with the couple image of a wizard fill |
| FormFill.FilledKeysAreTransient | app/Filament/Resources/Invitations/Pages/Concerns/SyncInvitationAssets.php:11-26 | every filled key except the two repeaters is a transient key |
| FormFill.StripKeepsPageData | app/Filament/Resources/Invitations/Pages/EditInvitation.php:78-81 | what reaches the row is the page's own data plus the two repeaters |
| FormFill.EditFillStripped | app/Filament/Resources/Invitations/Pages/EditInvitation.php:16-81 | filling then stripping leaves the page data untouched apart from the repeaters |
| EditPage.EditSave | app/Filament/Resources/Invitations/Pages/EditInvitation.php:78-86 | saving updates the row from the stripped state, then reconciles the raw state, touching only this invitation's rows; the cache of this invitation is forgotten and others are kept; a refused update is Rejected |
| EditPage.UploadKeysNeverReachRow | app/Filament/Resources/Invitations/Pages/EditInvitation.php:78-81 | changing a transient key cannot change the row update |
| EditPage.ResolvedGalleryAddsNothing | app/Filament/Resources/Invitations/Pages/Concerns/SyncInvitationAssets.php:119-131 | when every row with a file resolves, no gallery item is created |
| EditPage.ResolvedGiftsAddNothing | app/Filament/Resources/Invitations/Pages/Concerns/SyncInvitationAssets.php:148-157 | when every row with a file resolves, no gift account is created |
| EditPage.ResolvedSyncAddsNoRows | app/Filament/Resources/Invitations/Pages/Concerns/SyncInvitationAssets.php:101-167 | a resolved reconciliation keeps the gallery and gift key sets |
| EditPage.EditFillResolves | app/Filament/Resources/Invitations/Pages/EditInvitation.php:56-73 | a filled form resolves against any store the save produced |
| EditPage.UnchangedSaveAddsNoRows | app/Filament/Resources/Invitations/Pages/EditInvitation.php:16-86 | saving the form as filled adds no gallery item and no gift account |
| EditPage.UnchangedSaveTwice | app/Filament/Resources/Invitations/Pages/EditInvitation.php:78-86 | saving the same filled form a second time leaves the store as after the first save |
| EditPage.SyncWritesPersonText | app/Filament/Resources/Invitations/Pages/Concerns/SyncInvitationAssets.php:74-84 | after the reconciler the role's first person holds exactly the form's text |
| EditPage.UnchangedSaveKeepsPersonText | app/Filament/Resources/Invitations/Pages/EditInvitation.php:33-46 | saving the form as filled leaves every person's text columns as they were |
| CreatePage.CreateSave | app/Filament/Resources/Invitations/Pages/CreateInvitation.php:17-27 | create inserts the stripped state (Rejected when it cannot), then reconciles the raw state for the new id only; the new id's cache is empty |
| CreatePage.FreshGalleryRow | app/Filament/Resources/Invitations/Pages/Concerns/SyncInvitationAssets.php:119-126 | on create a gallery row with a file adds exactly one item of the new invitation at index + 1 |
| CreatePage.FreshGalleryCount | app/Filament/Resources/Invitations/Pages/Concerns/SyncInvitationAssets.php:101-133 | the number of new gallery items equals the number of rows with a file |
| CreatePage.FreshGalleryPositions | app/Filament/Resources/Invitations/Pages/Concerns/SyncInvitationAssets.php:123-131 | each row with a file has a new item at its position |
| CreatePage.CreateAddsGalleryItems | app/Filament/Resources/Invitations/Pages/CreateInvitation.php:24-27 | after create the gallery grew by one item per uploaded image, each at its repeater position |
| CreatePage.AcceptedFreshRowHasPath | app/Filament/Resources/Invitations/Schemas/InvitationForm.php:222 | a new gallery row that passes the image rule with a string image other than "0" names no item and carries a path the reconciler uses |
| CreatePage.AcceptedRowsNoIds | app/Filament/Resources/Invitations/Schemas/InvitationForm.php:222 | new gallery rows that pass the image rule name no existing item |
| CreatePage.AcceptedRowsHavePaths | app/Filament/Resources/Invitations/Schemas/InvitationForm.php:222 | every new gallery row that passes the image rule and whose image is not "0" has a path |
| CreatePage.AcceptedItems | app/Filament/Resources/Invitations/Pages/Concerns/SyncInvitationAssets.php:101-133 | from the reconciler's count and positions: each new row that passes the image rule with an image other than "0" has a new item at its position, and with no "0" image the gallery grows by one item per row |
| CreatePage.CreateAddsAcceptedRows | app/Filament/Resources/Invitations/Pages/CreateInvitation.php:24-27 | creating from new gallery rows that pass the image rule at InvitationForm.php:222 adds a new item of the new invitation at each row's position plus one, and exactly one item per row when no image is "0" |
| Wizard.LatestOwned | app/Livewire/InvitationWizard.php:34-39 | the user's invitation with the largest id, or none exactly when the user owns none |
| Wizard.Mount | app/Livewire/InvitationWizard.php:30-47 | a given record is kept; without one a signed-in user gets their latest invitation |
| Wizard.WithOwner | app/Livewire/InvitationWizard.php:62-65 | a signed-in user's id is added exactly when user_id is empty |
| Wizard.Owned | app/Livewire/InvitationWizard.php:68-70 | an ownerless record gets the signed-in user; otherwise it is untouched |
| Wizard.WithOwnerFillsAlike | app/Livewire/InvitationWizard.php:63-72 | adding user_id to the payload changes nothing about fill, which keeps the owner set beforehand |
| Wizard.OwnedUpdate | app/Livewire/InvitationWizard.php:67-72 | an update with an owner set first equals the plain update with that owner |
| Wizard.SaveRecord | app/Livewire/InvitationWizard.php:67-72 | saving an existing record updates it from the stripped state and sets a missing owner |
| Wizard.CreateAsWritten | app/Livewire/InvitationWizard.php:73-78 | as written: the new invitation gets a fresh id above every existing one, leaves every other row alone, has no owner because user_id is not fillable, and its cache key is cleared |
| Wizard.WizardSaveAsWritten | app/Livewire/InvitationWizard.php:57-79 | as written: an existing record saves through the record branch with the same id; without one, the create branch as written runs |
| Wizard.CreateOwned | app/Livewire/InvitationWizard.php:73-78 | corrected: the new invitation is created exactly when the insert succeeds, with a fresh id, every other row kept, the signed-in user as owner and its cache key cleared |
| Wizard.WizardSave | app/Livewire/InvitationWizard.php:57-79 | corrected: the existing record's branch is unchanged, and only the create branch differs |
| Wizard.WizardCreateLosesOwner | app/Livewire/InvitationWizard.php:74 | as written, after a first wizard save the user owns no invitation, so the next mount finds none |
| Wizard.WizardCreateReopens | app/Livewire/InvitationWizard.php:34-39 | corrected, the next mount reopens the invitation just created |
| TemplateRenderer.Statuses | app/Services/TemplateRenderer.php:30-43 | every entry accepts published and never archived; only the public entry refuses drafts |
| TemplateRenderer.CachesByDefault | app/Services/TemplateRenderer.php:30-43 | only the preview entry skips the cache by default |
| TemplateRenderer.LoadBySlugAndStatuses | app/Services/TemplateRenderer.php:72-85 | the found invitation has the slug and an allowed status; NotFound exactly when none has both |
| TemplateRenderer.ArchivedNeverFound | app/Services/TemplateRenderer.php:30-43 | no entry ever loads an archived invitation |
| TemplateRenderer.PublicOnlyPublished | app/Services/TemplateRenderer.php:35-38 | the public entry only loads published invitations |
| TemplateRenderer.PublicFoundPreviewFindsSame | app/Services/TemplateRenderer.php:35-43 | what the public entry finds, the preview finds too, and a preview miss is a public miss |
| TemplateRenderer.ResolveView | app/Services/TemplateRenderer.php:115-124 | a view exists exactly for a truthy template code, prefixed with "templates." |
| TemplateRenderer.ResolveViewRoundTrip | app/Services/TemplateRenderer.php:123 | dropping the prefix from the view name gives back the code |
| TemplateRenderer.MissingRelations | app/Services/TemplateRenderer.php:140-166 | without a known code nothing is missing; for template-1 a required relation is reported exactly when it is null; to-many relations are never reported |
| TemplateRenderer.NothingMissingWhenLoaded | app/Services/TemplateRenderer.php:140-166 | an aggregate with every one-to-one relation loaded reports nothing missing |
| TemplateRenderer.DefaultsAreLoaded | app/Services/TemplateRenderer.php:126-138 | after the defaults are written, a fresh load has every one-to-one relation |
| TemplateRenderer.PersonViewOf | app/Services/TemplateRenderer.php:228-243 | a missing person gives all-null fields; a present one gives its name and handle |
| TemplateRenderer.EventViews | app/Services/TemplateRenderer.php:248-262 | the event views are a sorted permutation of the events' views, equal to the loaded order when already sorted |
| TemplateRenderer.GalleryViews | app/Services/TemplateRenderer.php:263-270 | the gallery views are a sorted permutation of the items' views |
| TemplateRenderer.GiftViews | app/Services/TemplateRenderer.php:283-297 | the gift views are a sorted permutation of the accounts' views |
| TemplateRenderer.WishViews | app/Services/TemplateRenderer.php:300-309 | the wish views are a sorted permutation of the samples' views |
| TemplateRenderer.GuestbookViews | app/Services/TemplateRenderer.php:310-320 | at most 20 guestbook views, the first entries in loaded order |
| TemplateRenderer.MusicViewOf | app/Services/TemplateRenderer.php:322-326 | autoplay and loop default to true without music, else copy the columns |
| TemplateRenderer.BuildDto | app/Services/TemplateRenderer.php:206-327 | meta names the invitation; every list is sorted and holds exactly the relation's views; guestbook capped at 20; music defaults |
| TemplateRenderer.DtoKeepsLoadedOrder | app/Services/TemplateRenderer.php:248-320 | on a loaded aggregate the DTO lists equal the views in loaded order and the guestbook is newest first |
| TemplateRenderer.BuildFieldMap | app/Services/TemplateRenderer.php:330-376 | every flat field equals the DTO field of the same meaning |
| Decimal.DigitsValueOfNatToString | app/Services/TemplateRenderer.php:184 | the decimal text of an id reads back as that id |
| Decimal.NatToStringInjective | app/Services/TemplateRenderer.php:184 | different ids have different decimal texts |
| Php.ColumnText | app/Filament/Resources/Invitations/Pages/Concerns/SyncInvitationAssets.php:78-84 | what a nullable string column holds after the update: a string as itself, an int as its decimal text (signed when negative), a bool as "1"/"0", null for null or an array |
| Php.IntTextInjective | app/Filament/Resources/Invitations/Pages/Concerns/SyncInvitationAssets.php:78-84 | different ints are written as different texts |
| Decimal.NatToStringCanonical | app/Services/TemplateRenderer.php:184 | the decimal text has no leading zero |
| PayloadCache.CacheKey | app/Services/TemplateRenderer.php:184 | the key is "invitation:" + id + ":payload:v1" |
| PayloadCache.CacheKeyInjective | app/Services/TemplateRenderer.php:184 | different invitations never share a cache key |
| PayloadCache.CachedPayload | app/Services/TemplateRenderer.php:182-204 | a hit returns the stored DTO and fields unchanged; a miss builds and stores them; invitation, bride and groom are always fresh |
| PayloadCache.RememberedUntilForgotten | app/Services/TemplateRenderer.php:186 | a second render, even of changed data, returns the remembered DTO and fields |
| PayloadCache.ForgetCache | app/Services/TemplateRenderer.php:378-381 | forgetting removes exactly this invitation's key |
| PayloadCache.ForgetThenRecompute | app/Services/TemplateRenderer.php:378-381 | after forgetting, the next render rebuilds the payload from current data |
| PayloadCache.ForgetKeepsOthers | app/Services/TemplateRenderer.php:378-381 | forgetting one invitation keeps every other invitation's entry |
| PayloadCache.OnModelEvent | app/Models/Invitation.php:42-48 | a saved or deleted event drops this invitation's entry and keeps the others |
| PayloadCache.EventThenRenderRecomputes | app/Models/Invitation.php:42-48 | a render after a save or delete sees current data |
| RenderFlow.RenderInvitation | app/Services/TemplateRenderer.php:52-70 | defaults are written first; the page exists exactly when the view resolves and exists; without caching the payload is freshly built |
| RenderFlow.RenderDefault | app/Services/TemplateRenderer.php:30-43 | each entry with its default cache flag: a preview never writes the cache, a slug without a match among the entry's statuses is NotFound with the store unchanged, and the public page shows only a published invitation |
| RenderFlow.RenderEntry | app/Services/TemplateRenderer.php:30-50 | a miss is NotFound with nothing written; a page shows an invitation with the slug and an allowed status |
| RenderFlow.PublicPageIsPublished | app/Services/TemplateRenderer.php:35-38 | a public page only ever shows a published invitation |
| RenderFlow.DefaultsWrittenBeforeViewCheck | app/Services/TemplateRenderer.php:54-63 | an invitation without a template still gets its defaults written before the 404 |
| RenderFlow.SnapshotDtoMatchesFreshLoad | app/Services/TemplateRenderer.php:52-57 | the DTO from the pre-defaults aggregate equals the DTO from a fresh load after the defaults |
| TemplateOne.HeroImage | resources/views/templates/template-1.blade.php:18-20 | the couple image URL, else the first gallery item's URL, else the default background |
| TemplateOne.HeroTitle | resources/views/templates/template-1.blade.php:21-22 | the title when set, else the trimmed "name1 & name2" |
| TemplateOne.HeroTitleWithoutTitleNotBlank | resources/views/templates/template-1.blade.php:21-22 | the hero title is never blank, since the ampersand survives the trim |
| TemplateOne.ItemSlides | resources/views/templates/template-1.blade.php:24-39 | slides are the gallery items with a truthy URL, in order, each the item's own slide |
| TemplateOne.GallerySlides | resources/views/templates/template-1.blade.php:24-45 | the item slides, or the hero image as a single slide when there are none; empty exactly when both are missing |
| TemplateOne.HeroSlidesFollowGallery | resources/views/templates/template-1.blade.php:46-59 | one hero slide per gallery slide with the same image and alt, plus the hero title and description |
| TemplateOne.GallerySlidesOfFullGallery | resources/views/templates/template-1.blade.php:24-45 | when every item has an image, slide j is item j |
| TemplateOne.PersonSlides | resources/views/templates/template-1.blade.php:65-78 | one slide exactly when the person's photo has a truthy URL; alt is the name or the fallback |
| TemplateOne.WishItems | resources/views/templates/template-1.blade.php:61-63 | the wish samples when there are any, else the guestbook entries |
| TemplateOne.WishName | resources/views/templates/template-1.blade.php:967 | a guestbook entry shows its guest name, a sample its name or "Guest" |
| TemplateOne.ImplodeExplode | resources/views/templates/template-1.blade.php:968 | joining the space-split words with spaces gives back the name |
| TemplateOne.Initials | resources/views/templates/template-1.blade.php:968-979 | the initials are never blank; a name without truthy words shows "GG" |
| TemplateOne.InitialsOfTwoWords | resources/views/templates/template-1.blade.php:968-972 | two words give their two upper-cased first letters |
| TemplateOne.InitialsIgnoreLaterWords | resources/views/templates/template-1.blade.php:968-972 | words after the second do not change the initials |
| TemplateOne.EventLocationUrl | resources/views/templates/template-1.blade.php:733 | the event's own truthy URL, else the section default |
| TemplateOne.Next | resources/views/templates/template-1.blade.php:261-268 | next stays within 1..n, advancing and wrapping from n to 1 |
| TemplateOne.Previous | resources/views/templates/template-1.blade.php:253-260 | previous stays within 1..n, going back and wrapping from 1 to n |
| TemplateOne.NextPreviousInverse | resources/views/templates/template-1.blade.php:253-268 | previous undoes next and next undoes previous |
| TemplateOne.NextFullCircle | resources/views/templates/template-1.blade.php:261-268 | n presses of next return to the starting slide |
| GuestRequests.RequiredTextRules | app/Http/Requests/StoreRsvpRequest.php:17 | required/string/max:n passes exactly for a non-blank string of at most n characters |
| GuestRequests.OptionalTextRules | app/Http/Requests/StoreRsvpRequest.php:18 | nullable/string/max:n passes for null, blank, or a string of at most n characters |
| GuestRequests.RequiredWordRules | app/Http/Requests/StoreRsvpRequest.php:19 | required/in passes exactly for the words yes, no, maybe |
| GuestRequests.OptionalWordRules | app/Http/Requests/StoreGuestbookRequest.php:20 | nullable/in passes for null, blank, or one of the three words |
| GuestRequests.PartySizeRules | app/Http/Requests/StoreRsvpRequest.php:20 | required/integer/min:1/max:10 passes exactly for an integer from 1 to 10 |
| GuestRequests.RsvpRulesMeaning | app/Http/Requests/StoreRsvpRequest.php:17-22 | an RSVP request passes exactly when its fields have the plain shape field by field |
| GuestRequests.GuestbookRulesMeaning | app/Http/Requests/StoreGuestbookRequest.php:17-21 | a guestbook request passes exactly when its fields have the plain shape field by field |
| GuestRequests.HoneypotRejects | app/Http/Requests/StoreRsvpRequest.php:22 | a non-blank website field fails both forms |
| InteractionController.FindPublished | app/Http/Controllers/InvitationInteractionController.php:14-20 | the found invitation has the slug and is published; NotFound exactly when none is |
| InteractionController.PhpInt | app/Http/Controllers/InvitationInteractionController.php:48 | an int is kept and an all-digit string reads as its value |
| InteractionController.StoredUserAgent | app/Http/Controllers/InvitationInteractionController.php:51 | the stored user agent is a prefix of at most 1000 characters, the whole agent when short enough |
| InteractionController.RsvpRow | app/Http/Controllers/InvitationInteractionController.php:43-52 | the row takes the request's name, ip and truncated agent; attendance defaults to yes and pax to 1; the row is refused exactly when a column would reject its value |
| InteractionController.StoreRsvp | app/Http/Controllers/InvitationInteractionController.php:39-55 | Invalid exactly when validation fails, then NotFound exactly when no published invitation has the slug; otherwise one RSVP row is added to that invitation and nothing else changes |
| InteractionController.ValidRsvpIsStored | app/Http/Controllers/InvitationInteractionController.php:39-55 | every valid RSVP to a published invitation is stored with the given name, attendance and party size (1..10) |
| InteractionController.StoredAddress | app/Http/Controllers/InvitationInteractionController.php:29 | a falsy address string is stored as null, any other as given |
| InteractionController.GuestbookRowAsWritten | app/Http/Controllers/InvitationInteractionController.php:26-34 | as written, the row is refused when attendance is null, and accepted exactly for one of the four enum words |
| InteractionController.GuestbookAttendance | database/migrations/2026_01_11_025122_create_initial_table.php:300 | null or blank attendance becomes the column default "unknown"; a result is always one of the four words |
| InteractionController.InsertGuestbook | app/Http/Controllers/InvitationInteractionController.php:26-34 | an accepted row is added under a fresh id and no other row changes |
| InteractionController.StoreGuestbookAsWritten | app/Http/Controllers/InvitationInteractionController.php:22-37 | as written: Invalid exactly when validation fails, NotFound exactly when no published invitation matches, otherwise the as-written insert |
| InteractionController.StoreGuestbook | app/Http/Controllers/InvitationInteractionController.php:22-37 | corrected: as above with missing attendance stored as "unknown" |
| InteractionController.GuestbookWithoutAttendanceRefused | app/Http/Controllers/InvitationInteractionController.php:31 | as written, a valid entry without attendance to a published invitation is refused |
| InteractionController.NameAndMessageOnly | app/Http/Requests/StoreGuestbookRequest.php:17-21 | a request with only a name and a message passes validation, is refused as written and stored once corrected |
| InteractionController.ValidGuestbookIsStored | app/Http/Controllers/InvitationInteractionController.php:22-37 | corrected, every valid entry to a published invitation is stored with its name and message, null address exactly when falsy, attendance given or "unknown" |
| InteractionController.GuestbookAgreesWhenAttendanceGiven | app/Http/Controllers/InvitationInteractionController.php:31 | with a non-blank attendance the corrected and as-written endpoints agree |

## Left out

- File storage, HTTP, sessions and Livewire: the disk URL function (`diskUrl`), whether a view exists (`viewExists`), the client ip, the user agent and the clock (`now`) are parameters.
- Authentication, policies, routes, throttling, seeders, the admin table listing and the Filament page plumbing are not modelled.
- The form's own hydration of text fields and the Repeater `saveRelationships` writes are not modelled. Only the upload hooks, the pre-fill and the reconciler are modelled.
- The Laravel middleware that trims strings and turns empty strings into null is not modelled. Blank strings reach validation as the client sent them.
- The 10-minute cache lifetime is not modelled: an entry lives until it is forgotten.
- PHP array key order is not modelled: form state is a map.
- Column length limits, foreign keys and MySQL's numeric index for enum columns are not checked. Invitation columns refuse values of the wrong type (`Rejected`); person text columns take the value as Eloquent writes it (`Php.ColumnText`).
- Eloquent `first()` without an order is taken as the lowest id, and `latest()` as the highest id. Timestamps are not stored separately.
- `mb_strtoupper` is an uninterpreted parameter (`upper`) of `TemplateOne.Initials`. Characters are Dafny `char`s: there is no multibyte handling.
- The HTML, CSS and the carousel's autoplay timers are not modelled. Only the index arithmetic of `next()`/`previous()` is modelled, and the zero-slide guard is `GuardedNext`/`GuardedPrevious`.
- TemplateOne.HeroSlides: the second hero-slide fallback (template-1.blade.php:52-58) is dead code. The gallery slides are never empty when the hero image is truthy, so the model keeps the branch without proving more about it.
- TemplateOne.Previous: with zero slides the unguarded hero carousel sets the index to 0. The model returns n = 0 there and states nothing further.
- InteractionController.PhpInt: numeric strings with a sign, spaces, a fraction or an exponent are not read. The `(int)` cast is modelled on leading digits only.
- GuestRequests.PartySizeRules: the `integer` rule accepts ints and canonical digit strings only. Signed or padded numerals are treated as non-numeric.
- InteractionController.StoredUserAgent: `substr` counts bytes. The model counts characters.
- SyncIdempotence.SyncIsIdempotent: this holds under the hypothesis that every repeater row with a file names an existing row. A second create-style run with fresh rows would add items again, as the code does.
- UploadSlots.StatePath: an array state is given by its values in the widget's order (`Files`). Its keys are not modelled, and a first value that is not a string (a nested array, an object) is taken as no path.
- SyncInvitationAssets.UploadedPath: a truthy value that is not a string (a non-empty array such as a raw `[uuid => path]` upload state, `true`, a non-zero int) is taken as no path, so the stages leave the store unchanged for it. The code passes it on to `updateOrCreate`, where the outcome depends on query-builder binding and MySQL type coercion, which are not modelled.
- SyncInvitationAssets.RowsOf: only a list state gives repeater rows. A keyed state (a map) gives no rows. The code iterates any array and computes `$index + 1` from the key, which fails for Filament's string item keys and treats digit keys as positions.
- SyncInvitationAssets.SyncGallery: a keyed repeater state is not covered; see `SyncInvitationAssets.RowsOf`.
- SyncInvitationAssets.SyncGiftAccounts: a keyed repeater state is not covered; see `SyncInvitationAssets.RowsOf`.
- SyncInvitationAssets.PersonTextOf: an array value, on which the code's update fails, is written as null.
- SyncInvitationAssets.RowKey: only a positive int is read as a repeater row id. Numeric strings are not.
- InvitationRow.InsertInvitation: slugs are compared as exact strings, as under a binary collation or SQLite. Under MySQL's default case- and accent-insensitive collation the unique index also refuses a slug that differs only in case, accents or trailing spaces.
- InvitationRow.UpdateInvitation: the slug check compares exact strings, as for `InvitationRow.InsertInvitation`.
- TemplateRenderer.LoadBySlugAndStatuses: `where('slug', …)` compares exact strings. Under a case-insensitive collation a slug differing only in case would also match.
- InteractionController.FindPublished: the slug lookup compares exact strings, as for `TemplateRenderer.LoadBySlugAndStatuses`.
- CreatePage.CreateAddsAcceptedRows: the rows are those that pass the image rule at InvitationForm.php:222. The required hidden `image_asset_id` of line 215 refuses every new row on create as written; that is recorded under "Findings", and this lemma describes the corrected form.
- InvitationModel.CreateInvitation: requires every child row to belong to an existing invitation. The database's foreign keys guarantee this.
- Wizard.WithOwner: the `user_id` column is not part of the migrations included here. The model treats it as a nullable column on the invitation row.
- The wizard nests the couple image under `couple.couple_image`, while the reconciler reads the top-level key. This is modelled as written (`FormFill.WizardSaveSkipsCoupleImage`) and not claimed as a defect, because the outcome depends on Filament's state-path handling, which is not part of this model.
- The rendered payload is the aggregate loaded before the defaults are written, as the code does it. `RenderFlow.SnapshotDtoMatchesFreshLoad` shows the DTO is the same either way.
- The other models, controllers and views (welcome page, preview and public controllers, factories) are not part of this model.

## Findings

| source | as written | input that shows it | evidently intended | confidence | as-written member | corrected member |
|---|---|---|---|---|---|---|
| app/Livewire/InvitationWizard.php:74 | a new invitation is created with `Invitation::create($data)`; the `user_id` added at lines 62-65 is not in `$fillable` (app/Models/Invitation.php:13-20), so it is dropped | a signed-in user with no invitation saves the wizard; the new row has no owner and the next mount (lines 34-39) finds nothing (`Wizard.WizardCreateLosesOwner`) | the new invitation belongs to the signed-in user and reopens on the next visit (`Wizard.WizardCreateReopens`) | medium, not executed | Wizard.WizardSaveAsWritten | Wizard.WizardSave |
| app/Http/Controllers/InvitationInteractionController.php:31 | `attendance` is written as `$request->input('attendance')`, which is null when the optional field is absent or empty, into a NOT NULL enum column whose default is 'unknown' (database/migrations/2026_01_11_025122_create_initial_table.php:300) | a guestbook post with guest_name and message and no attendance, e.g. the page's own form with the "Kehadiran (opsional)" option left empty (template-1.blade.php:1007-1009); validation passes and the insert is refused (`InteractionController.NameAndMessageOnly`) | a missing attendance is stored as 'unknown' (`InteractionController.ValidGuestbookIsStored`) | medium, not executed | InteractionController.StoreGuestbookAsWritten | InteractionController.StoreGuestbook |
| app/Filament/Resources/Invitations/Schemas/InvitationForm.php:215 | the gallery row's hidden `image_asset_id` is `required()`, and only the image's `afterStateUpdated` hook sets it; that hook returns before `$set` when the form has no saved record (lines 233-236), which is always so on the create page | the create page with one new gallery row and an uploaded image; `image_asset_id` stays empty and the row is refused (`UploadSlots.NewGalleryRowRefusedOnCreate`) | a new row with an uploaded image is accepted on create, and the reconciler then creates its item at its position (`CreatePage.CreateAddsAcceptedRows`, over rows that pass only the image rule of line 222) | low, not executed; it depends on Filament validating hidden fields | UploadSlots.NewGalleryRowRefusedOnCreate | CreatePage.CreateAddsAcceptedRows |
