/**
 * The build configuration entities the Gradle plugins read: the developers
 * of the build and the Maven publication. They are Kotlin data classes, so
 * their text form is the data-class rendering "Name(field=value, ...)",
 * with "null" for an absent value.
 */
module BuildEntities {
  import opened Wrappers

  datatype Developer = Developer(id: string, name: string, email: string)

  datatype Organization = Organization(name: string, url: string)

  datatype License = License(name: string, url: string)

  datatype Scm = Scm(url: string, connection: string, developerConnection: string)

  datatype Publication = Publication(
    description: Option<string>,
    url: Option<string>,
    packaging: string,
    inceptionYear: string,
    organization: Option<Organization>,
    scm: Scm,
    license: Option<License>)

  /** A nullable value in a string template: its text, or "null". */
  function NullableText(v: Option<string>): string {
    if v.Some? then v.value else "null"
  }

  function OrganizationText(o: Organization): string {
    "Organization(name=" + o.name + ", url=" + o.url + ")"
  }

  function LicenseText(l: License): string {
    "License(name=" + l.name + ", url=" + l.url + ")"
  }

  function ScmText(s: Scm): string {
    "Scm(url=" + s.url + ", connection=" + s.connection + ", developerConnection=" + s.developerConnection + ")"
  }

  /** Publication.toString(), as a data class renders it. */
  function PublicationText(p: Publication): (r: string)
    ensures |r| >= 12 && r[..12] == "Publication("
  {
    "Publication(" + PublicationFields(p) + ")"
  }

  function PublicationFields(p: Publication): string {
    var org := if p.organization.Some? then OrganizationText(p.organization.value) else "null";
    var lic := if p.license.Some? then LicenseText(p.license.value) else "null";
    "description=" + NullableText(p.description) + ", url=" + NullableText(p.url)
      + ", packaging=" + p.packaging + ", inceptionYear=" + p.inceptionYear + ", organization=" + org
      + ", scm=" + ScmText(p.scm) + ", license=" + lic
  }
}
